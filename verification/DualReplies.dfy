/** Every query is answered: what is asked is either answered in the same step
    or pending with the successor, except in one case that is characterised. */
module DualReplies {
  import opened Prelude
  import opened EigrpMetric
  import opened DualTypes
  import opened DualNode
  import opened DualInvariant
  import opened DualProgress
  import opened DualTopology
  import opened DualRuns
  import S = DualSuccessor

  /** Who is sent a reply. */
  function RepliedTo(fx: seq<Effect>): set<NbrId> {
    set e | e in fx && e.SendReply? && !e.sia :: e.to
  }

  /** Who waits for an answer that comes with the end of the computation. */
  function Pending(node: Option<Node>): set<NbrId> {
    if node.Some? && (node.value.state == Active2 || node.value.state == Active3) && node.value.succ.nbr.Some?
    then {node.value.succ.nbr.value} else {}
  }

  lemma RepliedToConcat(a: seq<Effect>, b: seq<Effect>)
    ensures RepliedTo(a + b) == RepliedTo(a) + RepliedTo(b)
  {
    forall x | x in RepliedTo(a) + RepliedTo(b) ensures x in RepliedTo(a + b) {
      var e :| (e in a || e in b) && e.SendReply? && !e.sia && e.to == x;
      assert e in a + b;
    }
  }

  predicate NoReply(fx: seq<Effect>) {
    forall e :: e in fx ==> !e.SendReply?
  }

  lemma {:induction false} PacketsNoReply(env: Env, succ: Option<NbrId>, a: Advert, k: nat)
    requires k <= |env.ifaces|
    ensures NoReply(Updates(env, succ, a, k)) && NoReply(Queries(env, succ, a, k))
  {
    if k > 0 { PacketsNoReply(env, succ, a, k - 1); }
  }

  lemma {:induction false} FibNoReply(env: Env, bar: Bar, routes: seq<Route>, k: nat)
    requires k <= |routes|
    ensures NoReply(FibMessages(env, bar, routes, k)) && NoReply(KernelDeletes(routes, k))
  {
    if k > 0 { FibNoReply(env, bar, routes, k - 1); }
  }

  lemma UpdateFibNoReply(env: Env, node: Node)
    ensures NoReply(UpdateFib(env, node).fx)
  {
    FibNoReply(env, FibBar(env, node.succ.fdistance), node.routes, |node.routes|);
  }

  lemma FsmNoReply(env: Env, node: Node, e: DualEvent)
    ensures NoReply(Fsm(env, node, e).fx)
  {
    var t := NextState(node.state, e);
    if t.Some? { UpdateFibNoReply(env, node.(state := t.value)); }
  }

  lemma GoActiveNoReply(env: Env, node: Node, e: DualEvent)
    ensures NoReply(GoActive(env, node, e).fx)
  {
    PacketsNoReply(env, node.succ.nbr, MarkActive(SuccessorAdvert(node)), |env.ifaces|);
    FsmNoReply(env, QueryAll(env, node).node, e);
  }

  /** The answer at the end goes to the old successor if it had asked, and to nobody else. */
  lemma SettledReplies(env: Env, node: Node, r: Option<Route>, e: DualEvent)
    ensures NoReply(Settled(env, node, r, e).fx)
    ensures RepliedTo(SettledWithReply(env, node, r, e).fx) == if node.succ.nbr.Some? then {node.succ.nbr.value} else {}
  {
    var n := SetSuccessor(node, r);
    var a := MarkActive(SuccessorAdvert(n));
    FsmNoReply(env, n, e);
    PacketsNoReply(env, n.succ.nbr, SuccessorAdvert(n), |env.ifaces|);
    PacketsNoReply(env, n.succ.nbr, a, |env.ifaces|);
    var reply := if node.succ.nbr.Some? then [SendReply(node.succ.nbr.value, Capped(env, a), false)] else [];
    var f := Fsm(env, n, e).fx;
    RepliedToConcat(reply, UpdateAll(env, n, a));
    RepliedToConcat(reply + UpdateAll(env, n, a), f);
    if node.succ.nbr.Some? {
      assert reply[0].to in RepliedTo(reply);
    }
  }

  /** Closing answers exactly whoever was pending; a second round keeps it pending. */
  lemma LastReplyAnswers(env: Env, node: Node)
    requires EnvOk(env) && Base(env, node) && node.rijk == [] && node.state != Passive
    ensures var s := LastReplyStep(env, node);
            RepliedTo(s.fx) + Pending(Some(s.node)) == Pending(Some(node))
            && (s.node.state == Passive ==> RepliedTo(s.fx) == Pending(Some(node)))
  {
    hide Settled, SettledWithReply, GoActive, Select;
    LastReplyStepOk(env, node);
    var r := Select(env, node);
    var f := Select(env, Forget(node));
    match node.state
    case Active0 => if r.None? { GoActiveNoReply(env, node, Evt11); } else { SettledReplies(env, node, r, Evt14); }
    case Active1 => SettledReplies(env, node, f, Evt15);
    case Active2 => if r.None? { GoActiveNoReply(env, node, Evt12); } else { SettledReplies(env, node, r, Evt16); }
    case Active3 => SettledReplies(env, node, f, Evt13);
  }

  lemma ReapReplies(s: Step)
    ensures RepliedTo(Reap(s).fx) == RepliedTo(s.fx)
    ensures Pending(Reap(s).node) == Pending(Some(s.node))
  {
    if s.node.state == Passive && s.node.succ.nbr.None? {
      var d := KernelDeletes(s.node.routes, |s.node.routes|);
      FibNoReply(Env(KValues(0, 0, 0), 0, 0, 0, [], map[], []), Bar(0, 0), s.node.routes, |s.node.routes|);
      RepliedToConcat(s.fx, Settles(s.node.rijk));
      RepliedToConcat(s.fx + Settles(s.node.rijk), d);
    }
  }

  /** The books balance over a step: before and newly asked on one side,
      answered and still pending on the other. */
  ghost predicate Balanced(before: Option<Node>, asked: set<NbrId>, o: Outcome) {
    Pending(before) + asked == RepliedTo(o.fx) + Pending(o.node)
  }

  lemma CloseBalanced(env: Env, fx: seq<Effect>, node: Node)
    requires EnvOk(env) && Base(env, node) && node.rijk == [] && node.state != Passive && NoReply(fx)
    ensures Balanced(Some(node), {}, After(fx, LastReply(env, node)))
  {
    hide LastReplyStep, Reap;
    LastReplyAnswers(env, node);
    var s := LastReplyStep(env, node);
    ReapReplies(s);
    RepliedToConcat(fx, Reap(s).fx);
  }

  lemma AbsorbNoReply(node: Node, n: NbrId, info: Option<Info>)
    ensures NoReply(Absorb(node, n, info).fx)
    ensures Absorb(node, n, info).node == node.(routes := Absorb(node, n, info).node.routes)
  {
  }

  // ---------------------------------------------------------------- the three inputs

  lemma DecideReplies(env: Env, node: Node, e: DualEvent, oldFd: uint32, replyTo: Option<NbrId>)
    requires Select(env, node).Some?
    ensures RepliedTo(Decide(env, node, e, oldFd, replyTo).fx) == if replyTo.Some? then {replyTo.value} else {}
  {
    hide UpdateFib, Select;
    var n := SetSuccessor(node, Select(env, node));
    var f := UpdateFib(env, n);
    var a := SuccessorAdvert(n);
    UpdateFibNoReply(env, n);
    PacketsNoReply(env, n.succ.nbr, a, |env.ifaces|);
    var reply := if replyTo.Some? then [SendReply(replyTo.value, Capped(env, a), false)] else [];
    var updates := if n.succ.fdistance != oldFd then UpdateAll(env, n, a) else [];
    RepliedToConcat(f.fx, reply);
    RepliedToConcat(f.fx + reply, updates);
    if replyTo.Some? { assert reply[0].to in RepliedTo(reply); }
  }

  lemma UpdateBalanced(env: Env, prev: Option<Node>, n: NbrId, info: Option<Info>)
    requires EnvOk(env) && n in env.nbrs && (prev.Some? ==> NodeOk(env, prev.value) && Waiting(env, prev.value))
    ensures Balanced(prev, {}, CheckUpdate(env, prev, n, info))
  {
    if prev.Some? || info.Some? {
      var start := if prev.None? then NEW_NODE else prev.value;
      AbsorbOk(env, start, n, info);
      AbsorbNoReply(start, n, info);
      var a := Absorb(start, n, info);
      if start.state == Passive {
        PassiveUpdateBalanced(env, a, start.succ.fdistance);
      }
    }
  }

  lemma PassiveUpdateBalanced(env: Env, a: Step, oldFd: uint32)
    requires EnvOk(env) && Base(env, a.node) && a.node.state == Passive && a.node.rijk == [] && NoReply(a.fx)
    ensures var d := Decide(env, a.node, Evt4, oldFd, None); Balanced(None, {}, CloseIfQuiet(env, Step(d.node, a.fx + d.fx)))
  {
    hide Decide, LastReply;
    var d := Decide(env, a.node, Evt4, oldFd, None);
    DecideOk(env, a.node, Evt4, oldFd, None);
    DecideStates(env, a.node, Evt4, oldFd, None);
    RepliedToConcat(a.fx, d.fx);
    if d.node.state != Passive && d.node.rijk == [] { CloseBalanced(env, a.fx + d.fx, d.node); }
  }

  /** Where a passive prefix can go, and whom that answers. */
  lemma DecideStates(env: Env, node: Node, e: DualEvent, oldFd: uint32, replyTo: Option<NbrId>)
    requires EnvOk(env) && Base(env, node) && node.state == Passive && node.rijk == [] && (e == Evt3 || e == Evt4)
    ensures var d := Decide(env, node, e, oldFd, replyTo);
            && d.node.state == (if Select(env, node).Some? then Passive else if e == Evt3 then Active3 else Active1)
            && (Select(env, node).Some? ==> RepliedTo(d.fx) == if replyTo.Some? then {replyTo.value} else {})
            && (Select(env, node).None? ==> NoReply(d.fx) && d.node.succ == node.succ)
  {
    DecideOk(env, node, e, oldFd, replyTo);
    if Select(env, node).Some? {
      DecideReplies(env, node, e, oldFd, replyTo);
    } else {
      GoActiveOk(env, node, e);
      GoActiveNoReply(env, node, e);
    }
  }

  lemma ReplyBalanced(env: Env, prev: Option<Node>, n: NbrId, info: Option<Info>, sia: bool)
    requires EnvOk(env) && n in env.nbrs && (prev.Some? ==> NodeOk(env, prev.value))
    ensures Balanced(prev, {}, CheckReply(env, prev, n, info, sia))
  {
    if Awaited(prev, n) && !sia {
      AbsorbOk(env, prev.value, n, info);
      AbsorbNoReply(prev.value, n, info);
      var a := Absorb(prev.value, n, info);
      RemoveFirstFacts(a.node.rijk, n);
      var rest := a.node.(rijk := RemoveFirst(a.node.rijk, n));
      if rest.rijk == [] { CloseBalanced(env, a.fx + [Settle(n)], rest); }
    }
  }

  /** The one case in which a query is lost: it makes the prefix active although
      it does not come from the recorded successor, who will get the answer. */
  predicate LosesQuery(env: Env, prev: Option<Node>, n: NbrId, info: Option<Info>) {
    && prev.Some? && prev.value.state == Passive && prev.value.succ.nbr != Some(n)
    && Select(env, Absorb(prev.value, n, info).node).None?
  }

  lemma PassiveQueryBalanced(env: Env, prev: Node, n: NbrId, info: Option<Info>)
    requires EnvOk(env) && n in env.nbrs && NodeOk(env, prev) && prev.state == Passive
    ensures var a := Absorb(prev, n, info);
            var q := ServeQuery(env, a.node, n, prev.succ.fdistance);
            Balanced(Some(prev), {n}, CloseIfQuiet(env, Step(q.node, a.fx + q.fx))) <==> !LosesQuery(env, Some(prev), n, info)
  {
    hide Decide, LastReply, Select, Absorb, Fsm, UpdateFib, Queries, Updates, GoActive;
    AbsorbOk(env, prev, n, info);
    AbsorbNoReply(prev, n, info);
    var a := Absorb(prev, n, info);
    var d := Decide(env, a.node, Evt3, prev.succ.fdistance, Some(n));
    DecideOk(env, a.node, Evt3, prev.succ.fdistance, Some(n));
    DecideStates(env, a.node, Evt3, prev.succ.fdistance, Some(n));
    RepliedToConcat(a.fx, d.fx);
    var i :| 0 <= i < |prev.routes| && DescribesRoute(prev.succ, prev.routes[i]);
    if d.node.state != Passive && d.node.rijk == [] {
      CloseBalanced(env, a.fx + d.fx, d.node);
      LastReplyPassive(env, d.node);
    }
  }

  lemma LastReplyPassive(env: Env, node: Node)
    requires EnvOk(env) && Base(env, node) && node.rijk == [] && node.state == Active3
    ensures Pending(LastReply(env, node).node) == {}
  {
    LastReplyForgets(env, node);
  }

  lemma ActiveQueryBalanced(env: Env, prev: Node, n: NbrId, info: Option<Info>)
    requires EnvOk(env) && n in env.nbrs && NodeOk(env, prev) && Waiting(env, prev) && prev.state != Passive
    ensures var a := Absorb(prev, n, info);
            var q := ServeQuery(env, a.node, n, prev.succ.fdistance);
            Balanced(Some(prev), {n}, CloseIfQuiet(env, Step(q.node, a.fx + q.fx)))
  {
    hide Absorb, LastReply, Decide, UpdateFib, Select, SelectIndex, Queries, Updates;
    AbsorbOk(env, prev, n, info);
    AbsorbNoReply(prev, n, info);
    var a := Absorb(prev, n, info);
    var q := ServeQuery(env, a.node, n, prev.succ.fdistance);
    ServeQueryProgress(env, a.node, n, prev.succ.fdistance);
    RepliedToConcat(a.fx, q.fx);
    if prev.succ.nbr != Some(n) {
      var f := Fsm(env, a.node, Evt6);
      var reply := [SendReply(n, Capped(env, MarkActive(SuccessorAdvert(f.node))), false)];
      RepliedToConcat(f.fx, reply);
      assert reply[0].to in RepliedTo(reply);
    }
  }

  /** A query is accounted for exactly when it is not the lost case. */
  lemma QueryBalanced(env: Env, prev: Option<Node>, n: NbrId, asked: Advert, info: Option<Info>, sia: bool)
    requires EnvOk(env) && n in env.nbrs && (prev.Some? ==> NodeOk(env, prev.value) && Waiting(env, prev.value))
    ensures Balanced(prev, {n}, CheckQuery(env, prev, n, asked, info, sia)) <==> !LosesQuery(env, prev, n, info)
  {
    hide ServeQuery, CloseIfQuiet, Absorb, Select;
    if prev.None? {
      UnknownQueryBalanced(env, n, asked, info, sia);
    } else {
      if prev.value.state == Passive { PassiveQueryBalanced(env, prev.value, n, info); }
      else { ActiveQueryBalanced(env, prev.value, n, info); }
      var a := Absorb(prev.value, n, info);
      var q := ServeQuery(env, a.node, n, prev.value.succ.fdistance);
      var o := CloseIfQuiet(env, Step(q.node, a.fx + q.fx));
      if o.node.Some? {
        var late := [SendReply(n, Capped(env, MarkActive(SuccessorAdvert(o.node.value))), true)];
        RepliedToConcat(o.fx, late);
      }
    }
  }

  lemma UnknownQueryBalanced(env: Env, n: NbrId, asked: Advert, info: Option<Info>, sia: bool)
    ensures Balanced(None, {n}, CheckQuery(env, None, n, asked, info, sia))
  {
    var fx := CheckQuery(env, None, n, asked, info, sia).fx;
    assert fx[0].to in RepliedTo(fx);
  }

  // ---------------------------------------------------------------- runs

  function Asked(e: Event): set<NbrId> {
    if e.Query? then {e.n} else {}
  }

  /** In every run of updates, queries and replies: each step answers, for its
      prefix, exactly what was pending or asked and is not pending any more,
      unless it is a query that hits the lost case. */
  lemma RunBalanced(states: seq<Rde>, events: seq<Event>, k: nat)
    requires TalkRun(states, events) && k < |events|
    ensures var s, e := states[k], events[k];
            Balanced(Lookup(s.topology, e.p), Asked(e), OutcomeOf(s, e))
            <==> !(e.Query? && LosesQuery(s.env, Lookup(s.topology, e.p), e.n, Interpret(s.env, e.n, e.advert)))
  {
    hide CheckUpdate, CheckQuery, CheckReply, Interpret, Balanced, LosesQuery;
    TalkRunWaits(states, events, k);
    var s, e := states[k], events[k];
    var prev := Lookup(s.topology, e.p);
    var info := Interpret(s.env, e.n, e.advert);
    if e.Update? { UpdateBalanced(s.env, prev, e.n, info); }
    else if e.Query? { QueryBalanced(s.env, prev, e.n, e.advert, info, e.sia); }
    else { ReplyBalanced(s.env, prev, e.n, info, e.sia); }
  }

  /** The lost case exists: an infeasible internal route arriving in a query
      makes the external successor ineligible. */
  lemma LostQueryExample(env: Env, succ: Route, info: Info, n: NbrId)
    requires succ.rtype == External && succ.nbr != n && !IsLocal(env, n) && info.nexthop > succ.nexthop
    requires info.rtype == Internal && info.rdistance >= succ.distance && succ.distance < INFINITE_METRIC
    requires EnvOk(env) && n in env.nbrs && succ.nbr in env.nbrs && !succ.installed
    ensures var prev := SetSuccessor(NEW_NODE.(routes := [succ]), Some(succ));
            NodeOk(env, prev) && Waiting(env, prev) && LosesQuery(env, Some(prev), n, Some(info))
  {
    var prev := SetSuccessor(NEW_NODE.(routes := [succ]), Some(succ));
    var r := NewRoute(n, info);
    assert DescribesRoute(prev.succ, prev.routes[0]);
    assert RouteIndex([succ], n) == 1 by { assert RouteIndex([succ][1..], n) == 0; }
    assert InsertIndex([succ], info.nexthop) == 1 by { assert InsertIndex([succ][1..], info.nexthop) == 0; }
    var routes := Absorb(prev, n, Some(info)).node.routes;
    assert routes == [succ, r];
    assert !ExternalOnly(routes) by { assert routes[1].rtype == Internal; }
    assert forall i :: 0 <= i < 2 ==> !Attached(env, routes[i]) && !Candidate(routes, succ.distance, routes[i]);
  }

  // ---------------------------------------------------------------- a run that gets there

  const FAR_ADVERT := S.DEMO_ADVERT.(metric := S.DEMO_ADVERT.metric.(delay := 12_800))
  const EXTERNAL_ADVERT := S.DEMO_ADVERT.(rtype := External)

  lemma FarDistance()
    ensures var i := Interpret(S.DemoEnv(), 3, FAR_ADVERT);
            i.Some? && i.value.rtype == Internal && i.value.nexthop == 3 && i.value.rdistance == 38_400 && i.value.distance == 40_960
  {
    var k := S.DemoEnv().k;
    CompositeWithoutLoad(k, 50, 100_000, 1);
    CompositeWithoutLoad(k, 60, 100_000, 1);
    assert SafeMul(256, 100) == 25_600 && SafeMul(256, 50) == 12_800 && SafeMul(256, 60) == 15_360;
  }

  lemma ExternalDistance()
    ensures var i := Interpret(S.DemoEnv(), 2, EXTERNAL_ADVERT);
            i.Some? && i.value.rtype == External && i.value.nexthop == 2 && i.value.distance == 30_720
  {
    S.DemoDistances(S.DemoEnv(), 2);
  }

  /** A query on an unknown prefix makes its sender the successor. */
  lemma FirstAsked(env: Env, n: NbrId, asked: Advert, info: Info)
    ensures CheckQuery(env, None, n, asked, Some(info), false).node
         == Some(SetSuccessor(NEW_NODE.(routes := [NewRoute(n, info)]), Some(NewRoute(n, info))))
  {
    S.FirstAbsorbed(n, info);
  }

  /** Two queries on a prefix nobody has heard of: the first brings an external
      route, the second an internal one that is not feasible; nobody will answer
      the second. */
  lemma LostQueryReachable() returns (states: seq<Rde>, events: seq<Event>)
    ensures TalkRun(states, events) && Run(states, events) && |events| == 2 && events[1].Query?
    ensures !Balanced(Lookup(states[1].topology, events[1].p), {events[1].n}, OutcomeOf(states[1], events[1]))
  {
    hide CheckUpdate, CheckQuery, CheckReply, LinkDown, Interpret, NbrSide, Targets, LosesQuery, Balanced;
    var s0 := S.DemoStart();
    var env := S.DemoEnv();
    var e1 := Query(2, S.DEMO_PREFIX, EXTERNAL_ADVERT, false);
    var e2 := Query(3, S.DEMO_PREFIX, FAR_ADVERT, false);
    ExternalDistance();
    FarDistance();
    var first := NewRoute(2, Interpret(env, 2, EXTERNAL_ADVERT).value);
    FirstAsked(env, 2, EXTERNAL_ADVERT, Interpret(env, 2, EXTERNAL_ADVERT).value);
    LostQueryExample(env, first, Interpret(env, 3, FAR_ADVERT).value, 3);
    assert Run([s0], []);
    RunKeepsInv([s0], [], 0);
    var s1 := Next(s0, e1);
    assert Lookup(s1.topology, S.DEMO_PREFIX) == Some(SetSuccessor(NEW_NODE.(routes := [first]), Some(first)));
    states, events := [s0, s1, Next(s1, e2)], [e1, e2];
    RunBalanced(states, events, 1);
  }
}
