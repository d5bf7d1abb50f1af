/** Theorems about whole runs of the route decision engine. */
module DualRuns {
  import opened Prelude
  import opened DualTypes
  import opened DualNode
  import opened DualInvariant
  import opened DualProgress
  import opened DualSelection
  import opened DualTopology

  // ---------------------------------------------------------------- the feasible distance

  ghost predicate ActiveAt(s: Rde, p: Prefix) {
    IsActive(Lookup(s.topology, p))
  }

  /** A walk that visits each prefix once does to `p` what the link loss does to `p` alone. */
  lemma {:induction false} WalkVisitsOnce(s: Rde, n: NbrId, walk: seq<Prefix>, k: nat, p: Prefix)
    requires k <= |walk| && Distinct(walk) && p in s.topology
    ensures LinkDownWalk(s, n, walk, k).env == s.env
    ensures Lookup(LinkDownWalk(s, n, walk, k).topology, p)
         == if p in walk[..k] then LinkDown(s.env, s.topology[p], n).node else Some(s.topology[p])
  {
    hide LinkDown;
    if k > 0 {
      WalkVisitsOnce(s, n, walk, k - 1, p);
      assert walk[..k] == walk[..k - 1] + [walk[k - 1]];
      assert walk[k - 1] !in walk[..k - 1];
    }
  }

  lemma {:induction false} StrikeKeepsDistance(topology: map<Prefix, Node>, n: NbrId, ps: seq<Prefix>, p: Prefix)
    requires p in topology
    ensures p in StrikeReplies(topology, n, ps)
    ensures StrikeReplies(topology, n, ps)[p] == topology[p].(rijk := StrikeReplies(topology, n, ps)[p].rijk)
    decreases |ps|
  {
    if ps != [] { StrikeKeepsDistance(topology, n, ps[..|ps| - 1], p); }
  }

  lemma LinkDownNextKeepsDistance(s: Rde, n: NbrId, walk: seq<Prefix>, p: Prefix)
    requires Inv(s) && n in s.env.nbrs && Walks(walk, s.topology) && ActiveAt(s, p)
    ensures var t := LinkDownWalk(s, n, walk, |walk|); KeepsDistance(Lookup(s.topology, p), Lookup(t.topology, p))
  {
    WalkVisitsOnce(s, n, walk, |walk|, p);
    assert walk[..|walk|] == walk;
    LinkDownKeepsDistance(s.env, s.topology[p], n);
  }

  /** A prefix event touches one prefix. */
  function OutcomeOf(s: Rde, e: Event): Outcome
    requires Enabled(s, e) && Talk(e)
  {
    var prev := Lookup(s.topology, e.p);
    var info := Interpret(s.env, e.n, e.advert);
    if e.Update? then CheckUpdate(s.env, prev, e.n, info)
    else if e.Query? then CheckQuery(s.env, prev, e.n, e.advert, info, e.sia)
    else CheckReply(s.env, prev, e.n, info, e.sia)
  }

  lemma TalkTouchesOne(s: Rde, e: Event, p: Prefix)
    requires Enabled(s, e) && Talk(e)
    ensures Next(s, e).env == s.env
    ensures Lookup(Next(s, e).topology, p) == if p == e.p then OutcomeOf(s, e).node else Lookup(s.topology, p)
  {
    hide CheckUpdate, CheckQuery, CheckReply, Interpret, NbrSide;
  }

  lemma TalkKeepsDistance(s: Rde, e: Event)
    requires Inv(s) && Enabled(s, e) && Talk(e)
    ensures KeepsDistance(Lookup(s.topology, e.p), OutcomeOf(s, e).node)
  {
    hide CheckUpdate, CheckQuery, CheckReply, Interpret;
    var prev := Lookup(s.topology, e.p);
    var info := Interpret(s.env, e.n, e.advert);
    if e.Update? { UpdateKeepsDistance(s.env, prev, e.n, info); }
    else if e.Query? { QueryKeepsDistance(s.env, prev, e.n, e.advert, info, e.sia); }
    else if prev.Some? { ReplyKeepsDistance(s.env, prev.value, e.n, info, e.sia); }
  }

  lemma NbrDownKeepsDistance(s: Rde, n: NbrId, walk: seq<Prefix>, p: Prefix)
    requires Inv(s) && Enabled(s, NbrDown(n, walk)) && ActiveAt(s, p)
    ensures KeepsDistance(Lookup(s.topology, p), Lookup(Next(s, NbrDown(n, walk)).topology, p))
  {
    hide LinkDown, NodeOk;
    LinkDownNextKeepsDistance(s, n, walk, p);
    var t := LinkDownWalk(s, n, walk, |walk|);
    var ps := if n in t.owing then t.owing[n] else [];
    StrikeKeys(t.topology, n, ps);
    if p in t.topology { StrikeKeepsDistance(t.topology, n, ps, p); }
  }

  lemma NextKeepsDistance(s: Rde, e: Event, p: Prefix)
    requires Inv(s) && Enabled(s, e)
    ensures KeepsDistance(Lookup(s.topology, p), Lookup(Next(s, e).topology, p))
  {
    if Talk(e) {
      TalkTouchesOne(s, e, p);
      TalkKeepsDistance(s, e);
    } else if ActiveAt(s, p) {
      match e
      case LinkDownNbr(n, walk) => LinkDownNextKeepsDistance(s, n, walk, p);
      case NbrUp(n, nbr) =>
      case NbrDown(n, walk) => NbrDownKeepsDistance(s, n, walk, p);
    }
  }

  /** In every run, while a prefix stays active its feasible distance does not
      move, whatever happens. */
  lemma {:induction false} FeasibleDistanceFixed(states: seq<Rde>, events: seq<Event>, p: Prefix, i: nat, j: nat)
    requires Run(states, events) && i <= j < |states|
    requires forall k :: i <= k <= j ==> ActiveAt(states[k], p)
    ensures p in states[i].topology && p in states[j].topology
    ensures states[j].topology[p].succ.fdistance == states[i].topology[p].succ.fdistance
  {
    hide Inv, Next, Enabled, Init;
    assert ActiveAt(states[i], p) && ActiveAt(states[j], p);
    if i < j {
      FeasibleDistanceFixed(states, events, p, i, j - 1);
      RunKeepsInv(states, events, j - 1);
      NextKeepsDistance(states[j - 1], events[j - 1], p);
    }
  }

  // ---------------------------------------------------------------- diffusing computations end

  /** Updates, queries and replies, and nothing that changes the neighbours. */
  predicate Talk(e: Event) {
    e.Update? || e.Query? || e.Reply?
  }

  ghost predicate AllWaiting(s: Rde) {
    forall p :: p in s.topology ==> Waiting(s.env, s.topology[p])
  }

  /** A reply that counts for `p`. */
  predicate Accepts(s: Rde, e: Event, p: Prefix) {
    e.Reply? && e.p == p && !e.sia && Awaited(Lookup(s.topology, p), e.n)
  }

  lemma OutcomeAdvances(s: Rde, e: Event)
    requires Inv(s) && AllWaiting(s) && Enabled(s, e) && Talk(e)
    ensures Advances(s.env, Lookup(s.topology, e.p), OutcomeOf(s, e).node, Accepts(s, e, e.p))
  {
    hide CheckUpdate, CheckQuery, CheckReply, Interpret, Waiting, NodeOk, Advances;
    var prev := Lookup(s.topology, e.p);
    var info := Interpret(s.env, e.n, e.advert);
    if e.Update? { CheckUpdateProgress(s.env, prev, e.n, info); }
    else if e.Query? { CheckQueryProgress(s.env, prev, e.n, e.advert, info, e.sia); }
    else { CheckReplyProgress(s.env, prev, e.n, info, e.sia); }
  }

  /** What one event does to the replies `p` still needs. */
  lemma TalkProgress(s: Rde, e: Event, p: Prefix)
    requires Inv(s) && AllWaiting(s) && Enabled(s, e) && Talk(e)
    ensures Next(s, e).env == s.env
    ensures Advances(s.env, Lookup(s.topology, p), Lookup(Next(s, e).topology, p), Accepts(s, e, p))
  {
    hide OutcomeOf, Next;
    TalkTouchesOne(s, e, p);
    OutcomeAdvances(s, e);
  }

  ghost predicate TalkRun(states: seq<Rde>, events: seq<Event>) {
    && |states| == |events| + 1 && Inv(states[0]) && AllWaiting(states[0])
    && forall i :: 0 <= i < |events| ==>
         Talk(events[i]) && Enabled(states[i], events[i]) && states[i + 1] == Next(states[i], events[i])
  }

  /** With a fixed set of neighbours an active prefix always waits for somebody. */
  lemma {:induction false} TalkRunWaits(states: seq<Rde>, events: seq<Event>, k: nat)
    requires TalkRun(states, events) && k < |states|
    ensures Inv(states[k]) && AllWaiting(states[k]) && states[k].env == states[0].env
  {
    hide Inv, Next, Enabled;
    if k > 0 {
      TalkRunWaits(states, events, k - 1);
      NextKeeps(states[k - 1], events[k - 1]);
      var s := states[k - 1];
      TalkProgress(s, events[k - 1], Prefix(0, 0));
      forall p | p in states[k].topology ensures Waiting(states[k].env, states[k].topology[p]) {
        TalkProgress(s, events[k - 1], p);
      }
    }
  }

  /** Replies accepted for `p` between steps `i` and `j`. */
  function Accepted(states: seq<Rde>, events: seq<Event>, p: Prefix, i: nat, j: nat): nat
    requires |states| == |events| + 1 && i <= j <= |events|
    decreases j
  {
    if i == j then 0
    else Accepted(states, events, p, i, j - 1) + if Accepts(states[j - 1], events[j - 1], p) then 1 else 0
  }

  function NeededAt(s: Rde, p: Prefix): nat {
    if p in s.topology then RepliesLeft(s.env, s.topology[p]) else 0
  }

  /** How many neighbours the computation on `p` queries. */
  function QueriedAt(s: Rde, p: Prefix): nat {
    if p in s.topology then TargetCount(s.env, s.topology[p]) else 0
  }

  /** While `p` stays active, the replies accepted and those still needed never
      exceed what was needed at the start. */
  lemma {:induction false} RepliesAccounted(states: seq<Rde>, events: seq<Event>, p: Prefix, i: nat, j: nat)
    requires TalkRun(states, events) && i <= j <= |events|
    requires forall k :: i <= k <= j ==> ActiveAt(states[k], p)
    ensures Accepted(states, events, p, i, j) + NeededAt(states[j], p) <= NeededAt(states[i], p)
    decreases j
  {
    hide Inv, Next, Enabled, RepliesLeft, Waiting;
    if i < j {
      RepliesAccounted(states, events, p, i, j - 1);
      TalkRunWaits(states, events, j - 1);
      TalkProgress(states[j - 1], events[j - 1], p);
      assert ActiveAt(states[j], p);
    }
  }

  /** A computation over n queried neighbours that starts at step `i` accepts
      fewer than 2n replies while it runs, so the 2n-th at the latest ends it. */
  lemma ClosesWithin2n(states: seq<Rde>, events: seq<Event>, p: Prefix, i: nat, j: nat)
    requires TalkRun(states, events) && 1 <= i <= j <= |events|
    requires !ActiveAt(states[i - 1], p)
    requires forall k :: i <= k <= j ==> ActiveAt(states[k], p)
    ensures Accepted(states, events, p, i, j) < 2 * QueriedAt(states[i], p)
  {
    hide Inv, Next, Enabled;
    TalkRunWaits(states, events, i - 1);
    TalkProgress(states[i - 1], events[i - 1], p);
    RepliesAccounted(states, events, p, i, j);
    TalkRunWaits(states, events, j);
    assert ActiveAt(states[j], p) && ActiveAt(states[i], p);
    assert Waiting(states[j].env, states[j].topology[p]);
  }

  // ---------------------------------------------------------------- the forwarding table

  /** The event reached the point where the table of `p` is brought up to date. */
  predicate Refreshes(s: Rde, e: Event, p: Prefix) {
    match e
    case Update(n, q, a) => q == p
    case Query(n, q, a, sia) => q == p && p in s.topology
    case Reply(n, q, a, sia) => Accepts(s, e, p)
    case LinkDownNbr(n, walk) => p in s.topology && HasRoute(s.topology[p].routes, n)
    case NbrDown(n, walk) => p in s.topology && HasRoute(s.topology[p].routes, n)
    case NbrUp(_, _) => false
  }

  lemma RefreshSyncs(s: Rde, e: Event, p: Prefix)
    requires Inv(s) && Enabled(s, e) && Refreshes(s, e, p) && p in Next(s, e).topology
    ensures Synced(Next(s, e).env, Next(s, e).topology[p])
  {
    hide LinkDown, LinkDownWalk, StrikeReplies, CheckUpdate, CheckQuery, CheckReply, Interpret, Synced, NodeOk, HasRoute;
    if Talk(e) {
      TalkTouchesOne(s, e, p);
      TalkSyncs(s, e);
    } else {
      LinkDownWalkOk(s, e.n, e.walk, |e.walk|);
      var t := LinkDownWalk(s, e.n, e.walk, |e.walk|);
      if e.NbrDown? {
        StrikeKeys(t.topology, e.n, if e.n in t.owing then t.owing[e.n] else []);
        LinkDownInstalls(s, e.n, e.walk, p);
        RemovalKeepsSynced(s, e.n, e.walk, p);
      } else {
        LinkDownInstalls(s, e.n, e.walk, p);
      }
    }
  }

  // ---------------------------------------------------------------- and stays as it is

  /** The neighbours behind the routes are what they were. */
  predicate SameBehind(env: Env, env': Env, routes: seq<Route>) {
    && env'.variance == env.variance && env'.maxPaths == env.maxPaths
    && forall r :: r in routes ==> r.nbr in env.nbrs && r.nbr in env'.nbrs && env'.nbrs[r.nbr] == env.nbrs[r.nbr]
  }

  lemma {:induction false} EligibleSameEnv(env: Env, env': Env, bar: Bar, routes: seq<Route>, k: nat)
    requires k <= |routes| && SameBehind(env, env', routes)
    ensures EligibleNbrs(env', bar, routes, k) == EligibleNbrs(env, bar, routes, k)
  {
    if k > 0 {
      EligibleSameEnv(env, env', bar, routes, k - 1);
      assert routes[k - 1] in routes;
    }
  }

  lemma SyncedSameEnv(env: Env, env': Env, node: Node, node': Node)
    requires NodeOk(env, node) && SameBehind(env, env', node.routes) && node' == node.(rijk := node'.rijk)
    requires Synced(env, node)
    ensures Synced(env', node')
  {
    EligibleSameEnv(env, env', FibBar(env, node.succ.fdistance), node.routes, |node.routes|);
    if node.state == Passive {
      var i :| 0 <= i < |node.routes| && DescribesRoute(node.succ, node.routes[i]);
      assert node.routes[i] in node.routes;
    }
  }

  /** Removing a neighbour without a route for `p` leaves its table alone. */
  lemma RemovalKeepsSynced(s: Rde, n: NbrId, walk: seq<Prefix>, p: Prefix)
    requires Inv(s) && Enabled(s, NbrDown(n, walk)) && p in s.topology
    requires var t := LinkDownWalk(s, n, walk, |walk|); p in t.topology ==> t.env == s.env && Synced(t.env, t.topology[p])
    ensures var r := Next(s, NbrDown(n, walk)); p in r.topology ==> Synced(r.env, r.topology[p])
  {
    hide LinkDown, LinkDownWalk, NodeOk, Synced;
    LinkDownWalkOk(s, n, walk, |walk|);
    assert walk[..|walk|] == walk;
    var t := LinkDownWalk(s, n, walk, |walk|);
    var r := Next(s, NbrDown(n, walk));
    var ps := if n in t.owing then t.owing[n] else [];
    StrikeKeys(t.topology, n, ps);
    if p in r.topology {
      StrikeKeepsDistance(t.topology, n, ps, p);
      RoutesKnown(t, p);
      SyncedSameEnv(t.env, r.env, t.topology[p], r.topology[p]);
    }
  }

  lemma RoutesKnown(s: Rde, p: Prefix)
    requires Inv(s) && p in s.topology
    ensures NodeOk(s.env, s.topology[p])
    ensures forall r :: r in s.topology[p].routes ==> r.nbr in s.env.nbrs
  {}

  /** Events that do not bring the table up to date leave it as it is. */
  lemma OthersKeepSynced(s: Rde, e: Event, p: Prefix)
    requires Inv(s) && Enabled(s, e) && !Refreshes(s, e, p) && p in s.topology && Synced(s.env, s.topology[p])
    ensures p in Next(s, e).topology ==> Synced(Next(s, e).env, Next(s, e).topology[p])
  {
    hide CheckUpdate, CheckQuery, Interpret, Synced, LinkDownWalk, NodeOk;
    if Talk(e) {
      TalkTouchesOne(s, e, p);
    } else if e.NbrUp? {
      RoutesKnown(s, p);
      SyncedSameEnv(s.env, Next(s, e).env, s.topology[p], s.topology[p]);
    } else {
      WalkVisitsOnce(s, e.n, e.walk, |e.walk|, p);
      assert e.walk[..|e.walk|] == e.walk;
      if e.NbrDown? { RemovalKeepsSynced(s, e.n, e.walk, p); }
    }
  }

  /** In every run: from the first event that brings the table of a prefix up to
      date, for as long as the prefix exists, whenever it is passive and its
      successor is not an attached network, the installed routes are exactly the
      first maximum-paths feasible ones within the variance. */
  lemma {:induction false} InstallsFirstPaths(states: seq<Rde>, events: seq<Event>, p: Prefix, i: nat, j: nat)
    requires Run(states, events) && i < j < |states| && Refreshes(states[i], events[i], p)
    requires forall k :: i < k <= j ==> p in states[k].topology
    ensures Synced(states[j].env, states[j].topology[p])
  {
    hide Inv, Next, Enabled, Init, Refreshes, Synced;
    RunKeepsInv(states, events, j - 1);
    assert states[j - 1 + 1] == Next(states[j - 1], events[j - 1]) && p in states[j].topology;
    if Refreshes(states[j - 1], events[j - 1], p) {
      RefreshSyncs(states[j - 1], events[j - 1], p);
    } else {
      InstallsFirstPaths(states, events, p, i, j - 1);
      OthersKeepSynced(states[j - 1], events[j - 1], p);
    }
  }

  lemma LinkDownInstalls(s: Rde, n: NbrId, walk: seq<Prefix>, p: Prefix)
    requires Inv(s) && n in s.env.nbrs && Walks(walk, s.topology) && p in s.topology && HasRoute(s.topology[p].routes, n)
    ensures var t := LinkDownWalk(s, n, walk, |walk|); p in t.topology ==> Synced(s.env, t.topology[p])
  {
    WalkVisitsOnce(s, n, walk, |walk|, p);
    assert walk[..|walk|] == walk;
    LinkDownSyncsNode(s.env, s.topology[p], n);
  }

  lemma TalkSyncs(s: Rde, e: Event)
    requires Inv(s) && Enabled(s, e) && Talk(e) && Refreshes(s, e, e.p)
    ensures OutcomeOf(s, e).node.Some? ==> Synced(s.env, OutcomeOf(s, e).node.value)
  {
    hide CheckUpdate, CheckQuery, CheckReply, Interpret, Synced;
    var prev := Lookup(s.topology, e.p);
    var info := Interpret(s.env, e.n, e.advert);
    if e.Update? { UpdateSyncs(s.env, prev, e.n, info); }
    else if e.Query? { QuerySyncs(s.env, prev.value, e.n, e.advert, info, e.sia); }
    else { ReplySyncs(s.env, prev.value, e.n, info); }
  }

  lemma LinkDownSyncsNode(env: Env, node: Node, n: NbrId)
    requires EnvOk(env) && n in env.nbrs && NodeOk(env, node) && HasRoute(node.routes, n)
    ensures var o := LinkDown(env, node, n); o.node.Some? ==> Synced(env, o.node.value)
  {
    LinkDownSyncs(env, node, n);
    LinkDownRouteOk(env, node, n);
    LinkDownForgets(env, node, n);
    var o := LinkDownRoute(env, node, n);
    if o.node.Some? && o.node.value.state == Passive {
      var v := o.node.value;
      var i :| 0 <= i < |v.routes| && DescribesRoute(v.succ, v.routes[i]);
      assert v.succ.nbr != Some(n);
    }
  }
}
