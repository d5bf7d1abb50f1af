/** Which paths the messages about a prefix can name: those its neighbours
    announced. When no two of them share a key, the kernel always agrees. */
module DualPaths {
  import opened Prelude
  import opened DualTypes
  import opened DualNode
  import opened DualInvariant
  import opened DualTopology
  import opened DualFib
  import opened DualKernel
  import opened DualRuns
  import K = KernelRoutes

  /** Every route leads over one of the paths and is marked as changed. */
  ghost predicate Inside(paths: iset<Path>, routes: seq<Route>) {
    forall r :: r in routes ==> PathOf(r) in paths && r.changed
  }

  ghost predicate Speaks(paths: iset<Path>, fx: seq<Effect>) {
    forall e :: e in fx && (e.KernelChange? || e.KernelDelete?) ==> e.path in paths
  }

  ghost predicate StepInside(paths: iset<Path>, s: Step) {
    Inside(paths, s.node.routes) && Speaks(paths, s.fx)
  }

  ghost predicate OutcomeInside(paths: iset<Path>, o: Outcome) {
    (o.node.Some? ==> Inside(paths, o.node.value.routes)) && Speaks(paths, o.fx)
  }

  /** What `n` announces is one of the paths. */
  ghost predicate Announces(paths: iset<Path>, n: NbrId, info: Option<Info>) {
    info.Some? ==> Path(n, info.value.rtype, info.value.nexthop) in paths
  }

  // ---------------------------------------------------------------- one prefix

  lemma AbsorbInside(paths: iset<Path>, node: Node, n: NbrId, info: Option<Info>)
    requires Inside(paths, node.routes) && Announces(paths, n, info)
    ensures StepInside(paths, Absorb(node, n, info))
  {
    var i := RouteIndex(node.routes, n);
    if i < |node.routes| { assert node.routes[i] in node.routes; }
  }

  lemma {:induction false} PacketsSpeak(paths: iset<Path>, env: Env, succ: Option<NbrId>, a: Advert, k: nat)
    requires k <= |env.ifaces|
    ensures Speaks(paths, Updates(env, succ, a, k)) && Speaks(paths, Queries(env, succ, a, k))
  {
    if k > 0 { PacketsSpeak(paths, env, succ, a, k - 1); }
  }

  lemma {:induction false} PassSpeaks(paths: iset<Path>, env: Env, bar: Bar, routes: seq<Route>, k: nat)
    requires Inside(paths, routes) && k <= |routes|
    ensures Speaks(paths, FibMessages(env, bar, routes, k)) && Speaks(paths, KernelDeletes(routes, k))
  {
    if k > 0 {
      PassSpeaks(paths, env, bar, routes, k - 1);
      assert routes[k - 1] in routes;
    }
  }

  lemma FlagsInside(paths: iset<Path>, before: seq<Route>, after: seq<Route>)
    requires Inside(paths, before) && SameButFlags(before, after)
    ensures Inside(paths, after)
  {
    forall r | r in after ensures PathOf(r) in paths && r.changed {
      var i :| 0 <= i < |after| && after[i] == r;
      assert before[i] in before;
    }
  }

  lemma UpdateFibInside(paths: iset<Path>, env: Env, node: Node)
    requires Inside(paths, node.routes)
    ensures StepInside(paths, UpdateFib(env, node))
  {
    var bar := FibBar(env, node.succ.fdistance);
    PassSpeaks(paths, env, bar, node.routes, |node.routes|);
    FibOnlyFlags(env, bar, node.routes);
    FlagsInside(paths, node.routes, FibRoutes(env, bar, node.routes));
    FlagsInside(paths, node.routes, Uninstalled(node.routes));
  }

  lemma FsmInside(paths: iset<Path>, env: Env, node: Node, e: DualEvent)
    requires Inside(paths, node.routes)
    ensures StepInside(paths, Fsm(env, node, e))
  {
    hide UpdateFib;
    var t := NextState(node.state, e);
    if t.Some? { UpdateFibInside(paths, env, node.(state := t.value)); }
  }

  lemma GoActiveInside(paths: iset<Path>, env: Env, node: Node, e: DualEvent)
    requires Inside(paths, node.routes)
    ensures StepInside(paths, GoActive(env, node, e))
  {
    hide Fsm, Queries, Inside;
    PacketsSpeak(paths, env, node.succ.nbr, MarkActive(SuccessorAdvert(node)), |env.ifaces|);
    FsmInside(paths, env, QueryAll(env, node).node, e);
  }

  lemma DecideInside(paths: iset<Path>, env: Env, node: Node, e: DualEvent, oldFd: uint32, replyTo: Option<NbrId>)
    requires Inside(paths, node.routes)
    ensures StepInside(paths, Decide(env, node, e, oldFd, replyTo))
  {
    hide GoActive, UpdateFib, Updates, Select, Inside;
    var r := Select(env, node);
    if r.None? {
      GoActiveInside(paths, env, node, e);
    } else {
      var n := SetSuccessor(node, r);
      UpdateFibInside(paths, env, n);
      PacketsSpeak(paths, env, n.succ.nbr, SuccessorAdvert(n), |env.ifaces|);
    }
  }

  lemma SettledInside(paths: iset<Path>, env: Env, node: Node, r: Option<Route>, e: DualEvent)
    requires Inside(paths, node.routes)
    ensures StepInside(paths, Settled(env, node, r, e)) && StepInside(paths, SettledWithReply(env, node, r, e))
  {
    hide Fsm, Updates, Inside;
    var n := SetSuccessor(node, r);
    FsmInside(paths, env, n, e);
    PacketsSpeak(paths, env, n.succ.nbr, SuccessorAdvert(n), |env.ifaces|);
    PacketsSpeak(paths, env, n.succ.nbr, MarkActive(SuccessorAdvert(n)), |env.ifaces|);
  }

  lemma LastReplyInside(paths: iset<Path>, env: Env, node: Node)
    requires Inside(paths, node.routes)
    ensures OutcomeInside(paths, LastReply(env, node))
  {
    hide Settled, SettledWithReply, GoActive, Select, Inside, Updates, Queries;
    var s := LastReplyStep(env, node);
    assert StepInside(paths, s) by {
      var r, f := Select(env, node), Select(env, Forget(node));
      match node.state
      case Passive =>
      case Active0 => if r.None? { GoActiveInside(paths, env, node, Evt11); } else { SettledInside(paths, env, node, r, Evt14); }
      case Active1 => SettledInside(paths, env, node, f, Evt15);
      case Active2 => if r.None? { GoActiveInside(paths, env, node, Evt12); } else { SettledInside(paths, env, node, r, Evt16); }
      case Active3 => SettledInside(paths, env, node, f, Evt13);
    }
    hide LastReplyStep;
    PassSpeaks(paths, env, Bar(0, 0), s.node.routes, |s.node.routes|);
  }

  lemma QuietInside(paths: iset<Path>, env: Env, s: Step)
    requires StepInside(paths, s)
    ensures OutcomeInside(paths, CloseIfQuiet(env, s))
  {
    hide LastReply;
    LastReplyInside(paths, env, s.node);
  }

  lemma UpdateInside(paths: iset<Path>, env: Env, prev: Option<Node>, n: NbrId, info: Option<Info>)
    requires (prev.Some? ==> Inside(paths, prev.value.routes)) && Announces(paths, n, info)
    ensures OutcomeInside(paths, CheckUpdate(env, prev, n, info))
  {
    hide Absorb, Decide, CloseIfQuiet;
    if prev.Some? || info.Some? {
      var start := if prev.None? then NEW_NODE else prev.value;
      AbsorbInside(paths, start, n, info);
      var a := Absorb(start, n, info);
      DecideInside(paths, env, a.node, Evt4, start.succ.fdistance, None);
      var d := if a.node.state == Passive then Decide(env, a.node, Evt4, start.succ.fdistance, None) else Step(a.node, []);
      QuietInside(paths, env, Step(d.node, a.fx + d.fx));
    }
  }

  lemma ServeQueryInside(paths: iset<Path>, env: Env, node: Node, n: NbrId, oldFd: uint32)
    requires Inside(paths, node.routes)
    ensures StepInside(paths, ServeQuery(env, node, n, oldFd))
  {
    hide Decide, Fsm, Inside;
    DecideInside(paths, env, node, Evt3, oldFd, Some(n));
    FsmInside(paths, env, node, Evt5);
    FsmInside(paths, env, node, Evt6);
  }

  lemma QueryInside(paths: iset<Path>, env: Env, prev: Option<Node>, n: NbrId, asked: Advert, info: Option<Info>, sia: bool)
    requires (prev.Some? ==> Inside(paths, prev.value.routes)) && Announces(paths, n, info)
    ensures OutcomeInside(paths, CheckQuery(env, prev, n, asked, info, sia))
  {
    hide Absorb, ServeQuery, CloseIfQuiet;
    var start := if prev.None? then NEW_NODE else prev.value;
    AbsorbInside(paths, start, n, info);
    if prev.Some? {
      var a := Absorb(start, n, info);
      ServeQueryInside(paths, env, a.node, n, start.succ.fdistance);
      var q := ServeQuery(env, a.node, n, start.succ.fdistance);
      QuietInside(paths, env, Step(q.node, a.fx + q.fx));
    }
  }

  lemma ReplyInside(paths: iset<Path>, env: Env, prev: Option<Node>, n: NbrId, info: Option<Info>, sia: bool)
    requires (prev.Some? ==> Inside(paths, prev.value.routes)) && Announces(paths, n, info)
    ensures OutcomeInside(paths, CheckReply(env, prev, n, info, sia))
  {
    hide Absorb, LastReply;
    if Awaited(prev, n) && !sia {
      AbsorbInside(paths, prev.value, n, info);
      var a := Absorb(prev.value, n, info);
      LastReplyInside(paths, env, a.node.(rijk := RemoveFirst(a.node.rijk, n)));
    }
  }

  lemma LinkDownInside(paths: iset<Path>, env: Env, node: Node, n: NbrId)
    requires Inside(paths, node.routes)
    ensures OutcomeInside(paths, LinkDown(env, node, n))
  {
    hide Absorb, LoseLink, CheckReply, Inside;
    if HasRoute(node.routes, n) {
      assert Absorb(node, n, None) == DropRoute(node, n) by { AbsorbNone(node, n); }
      AbsorbInside(paths, node, n, None);
      var a := DropRoute(node, n);
      LoseLinkInside(paths, env, a.node, n, node.succ.fdistance);
      ReplyInside(paths, env, Some(LoseLink(env, a.node, n, node.succ.fdistance).node), n, None, false);
    }
  }

  lemma AbsorbNone(node: Node, n: NbrId)
    ensures Absorb(node, n, None) == DropRoute(node, n)
  {}

  lemma LoseLinkInside(paths: iset<Path>, env: Env, node: Node, n: NbrId, oldFd: uint32)
    requires Inside(paths, node.routes)
    ensures StepInside(paths, LoseLink(env, node, n, oldFd))
  {
    hide Decide, Fsm, Inside;
    DecideInside(paths, env, node, Evt4, oldFd, None);
    FsmInside(paths, env, node, Evt9);
    FsmInside(paths, env, node, Evt10);
  }

  // ---------------------------------------------------------------- runs

  /** The prefix and everything said about it so far. */
  ghost predicate AllInside(paths: iset<Path>, s: Rde, p: Prefix) {
    && (p in s.topology ==> Inside(paths, s.topology[p].routes))
    && Speaks(paths, Traced(s.log, p))
  }

  /** An event that concerns `p` announces one of the paths. */
  ghost predicate Brings(paths: iset<Path>, s: Rde, e: Event, p: Prefix)
    requires Enabled(s, e)
  {
    Talk(e) && e.p == p ==> Announces(paths, e.n, Interpret(s.env, e.n, e.advert))
  }

  lemma CommitInside(paths: iset<Path>, s: Rde, q: Prefix, o: Outcome, p: Prefix)
    requires AllInside(paths, s, p) && (q == p ==> OutcomeInside(paths, o))
    ensures AllInside(paths, Commit(s, q, o), p)
  {
    hide Inside, NbrSide;
    TracedAppend(s.log, q, o.fx, p);
  }

  lemma {:induction false} WalkInside(paths: iset<Path>, s: Rde, n: NbrId, walk: seq<Prefix>, k: nat, p: Prefix)
    requires AllInside(paths, s, p) && k <= |walk|
    ensures AllInside(paths, LinkDownWalk(s, n, walk, k), p)
  {
    hide LinkDown, Commit;
    if k > 0 {
      WalkInside(paths, s, n, walk, k - 1, p);
      var t, q := LinkDownWalk(s, n, walk, k - 1), walk[k - 1];
      if q in t.topology {
        if q == p { LinkDownInside(paths, t.env, t.topology[q], n); }
        CommitInside(paths, t, q, LinkDown(t.env, t.topology[q], n), p);
      }
    }
  }

  lemma {:induction false} StrikesSpeak(paths: iset<Path>, log: seq<Logged>, ps: seq<Prefix>, n: NbrId, p: Prefix)
    requires Speaks(paths, Traced(log, p))
    ensures Speaks(paths, Traced(log + Strikes(ps, n), p))
    decreases |ps|
  {
    var l := log + Strikes(ps, n);
    if ps == [] {
      assert l == log;
    } else {
      StrikesSpeak(paths, log, ps[..|ps| - 1], n, p);
      assert l[..|l| - 1] == log + Strikes(ps[..|ps| - 1], n);
      assert l[|l| - 1] == Logged(ps[|ps| - 1], Settle(n));
    }
  }

  lemma NextInside(paths: iset<Path>, s: Rde, e: Event, p: Prefix)
    requires Enabled(s, e) && AllInside(paths, s, p) && Brings(paths, s, e, p)
    ensures AllInside(paths, Next(s, e), p)
  {
    hide CheckUpdate, CheckQuery, CheckReply, Interpret, Commit, LinkDownWalk, Inside, StrikeReplies;
    if Talk(e) {
      var prev, info := Lookup(s.topology, e.p), Interpret(s.env, e.n, e.advert);
      if e.p == p {
        if e.Update? { UpdateInside(paths, s.env, prev, e.n, info); }
        else if e.Query? { QueryInside(paths, s.env, prev, e.n, e.advert, info, e.sia); }
        else { ReplyInside(paths, s.env, prev, e.n, info, e.sia); }
      }
      CommitInside(paths, s, e.p, OutcomeOf(s, e), p);
    } else if !e.NbrUp? {
      WalkInside(paths, s, e.n, e.walk, |e.walk|, p);
      if e.NbrDown? {
        var t := LinkDownWalk(s, e.n, e.walk, |e.walk|);
        var ps := if e.n in t.owing then t.owing[e.n] else [];
        StrikesSpeak(paths, t.log, ps, e.n, p);
        StrikeKeys(t.topology, e.n, ps);
        if p in t.topology { StrikeKeepsDistance(t.topology, e.n, ps, p); }
      }
    }
  }

  ghost predicate RunBrings(paths: iset<Path>, states: seq<Rde>, events: seq<Event>, p: Prefix, n: nat)
    requires Run(states, events) && n <= |events|
  {
    forall i :: 0 <= i < n ==> Enabled(states[i], events[i]) && Brings(paths, states[i], events[i], p)
  }

  lemma {:induction false} RunInside(paths: iset<Path>, states: seq<Rde>, events: seq<Event>, p: Prefix, n: nat)
    requires Run(states, events) && n <= |events| && RunBrings(paths, states, events, p, n)
    ensures AllInside(paths, states[n], p)
  {
    hide Next, Enabled, AllInside, Brings;
    if n == 0 {
      StartInside(paths, states[0], p);
    } else {
      RunInside(paths, states, events, p, n - 1);
      NextInside(paths, states[n - 1], events[n - 1], p);
    }
  }

  lemma StartInside(paths: iset<Path>, s: Rde, p: Prefix)
    requires Init(s)
    ensures AllInside(paths, s, p)
  {}

  ghost predicate KeysApart(c: Priorities, p: Prefix, paths: iset<Path>) {
    forall x, y :: x in paths && y in paths && KeyOf(c, p, x) == KeyOf(c, p, y) ==> x == y
  }

  lemma {:induction false} PathsSpoken(paths: iset<Path>, fx: seq<Effect>)
    requires Speaks(paths, fx)
    ensures forall x :: x in KernelAfter({}, fx) ==> x in paths
    decreases |fx|
  {
    if fx != [] { PathsSpoken(paths, fx[..|fx| - 1]); }
  }

  lemma ApartMirrored(c: Priorities, p: Prefix, paths: iset<Path>, fx: seq<Effect>)
    requires Speaks(paths, fx) && KeysApart(c, p, paths)
    ensures MirroredAfter(c, p, fx)
  {
    hide KernelAfter, MirroredAfter;
    forall i | 0 <= i < |fx| ensures !Orphans(c, p, KernelAfter({}, fx[..i]), fx[i]) {
      PathsSpoken(paths, fx[..i]);
    }
    AlwaysMirroredExact(c, p, fx, |fx|);
    assert fx[..|fx|] == fx;
  }

  /** In every run in which no two announced paths of a prefix share next hop and
      priority, the kernel has exactly the installed routes of the prefix. */
  lemma ApartAgrees(c: Priorities, paths: iset<Path>, rdes: seq<Rde>, inputs: seq<Event>, n: nat,
                    states: seq<K.Fib>, events: seq<K.Event>, p: Prefix)
    requires Run(rdes, inputs) && n <= |inputs| && RunBrings(paths, rdes, inputs, p, n) && KeysApart(c, p, paths)
    requires Fed(c, rdes[n], states, events)
    ensures Agrees(c, rdes[n], states[|events|], p)
  {
    hide Fed, Agrees, MirroredAfter, RunBrings, KeysApart;
    RunInside(paths, rdes, inputs, p, n);
    ApartMirrored(c, p, paths, Traced(rdes[n].log, p));
    KernelExact(c, rdes, inputs, n, states, events, p);
  }

  /** The mark for changed metrics is on every route of every run. */
  lemma AlwaysChanged(states: seq<Rde>, events: seq<Event>, p: Prefix, n: nat)
    requires Run(states, events) && n <= |events| && p in states[n].topology
    ensures AllChanged(states[n].topology[p].routes)
  {
    hide Interpret, Next;
    var anything := iset x: Path | x.nexthop >= 0;
    RunInside(anything, states, events, p, n);
  }
}
