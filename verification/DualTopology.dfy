/** The whole route decision engine: every prefix, the neighbours' own lists of
    outstanding replies, and the trace of effects; and what every run keeps. */
module DualTopology {
  import opened Prelude
  import opened DualTypes
  import opened DualNode
  import opened DualInvariant

  datatype Logged = Logged(prefix: Prefix, effect: Effect)

  /** `owing[n]` lists the prefixes `n` still has to answer for. */
  datatype Rde = Rde(env: Env, topology: map<Prefix, Node>, owing: map<NbrId, seq<Prefix>>, log: seq<Logged>)

  function Lookup(topology: map<Prefix, Node>, p: Prefix): Option<Node> {
    if p in topology then Some(topology[p]) else None
  }

  function NbrSideApply(owing: map<NbrId, seq<Prefix>>, p: Prefix, e: Effect): map<NbrId, seq<Prefix>> {
    match e
    case Owe(n) => if n in owing then owing[n := owing[n] + [p]] else owing
    case Settle(n) => if n in owing then owing[n := RemoveFirst(owing[n], p)] else owing
    case _ => owing
  }

  function NbrSide(owing: map<NbrId, seq<Prefix>>, p: Prefix, fx: seq<Effect>): map<NbrId, seq<Prefix>> {
    if fx == [] then owing else NbrSideApply(NbrSide(owing, p, fx[..|fx| - 1]), p, fx[|fx| - 1])
  }

  function Tagged(p: Prefix, fx: seq<Effect>): seq<Logged> {
    seq(|fx|, i requires 0 <= i < |fx| => Logged(p, fx[i]))
  }

  /** The outcome of a step on prefix `p` takes effect. */
  function Commit(s: Rde, p: Prefix, o: Outcome): Rde {
    s.(topology := if o.node.Some? then s.topology[p := o.node.value] else s.topology - {p},
       owing := NbrSide(s.owing, p, o.fx),
       log := s.log + Tagged(p, o.fx))
  }

  // ---------------------------------------------------------------- inputs

  datatype Event =
    | Update(n: NbrId, p: Prefix, advert: Advert)
    | Query(n: NbrId, p: Prefix, advert: Advert, sia: bool)
    | Reply(n: NbrId, p: Prefix, advert: Advert, sia: bool)
    | LinkDownNbr(n: NbrId, walk: seq<Prefix>)
    | NbrUp(n: NbrId, nbr: Nbr)
    | NbrDown(n: NbrId, walk: seq<Prefix>)

  /** A walk over the topology tree visits every prefix once. */
  predicate Walks(walk: seq<Prefix>, topology: map<Prefix, Node>) {
    Distinct(walk) && forall p :: p in topology ==> p in walk
  }

  predicate Enabled(s: Rde, e: Event) {
    match e
    case Update(n, p, a) => n in s.env.nbrs && AdvertOk(a)
    case Query(n, p, a, _) => n in s.env.nbrs && AdvertOk(a)
    case Reply(n, p, a, _) => n in s.env.nbrs && AdvertOk(a)
    case LinkDownNbr(n, walk) => n in s.env.nbrs && Walks(walk, s.topology)
    case NbrUp(n, nbr) => n !in s.env.nbrs
    case NbrDown(n, walk) => n in s.env.nbrs && Walks(walk, s.topology)
  }

  function LinkDownPrefix(s: Rde, n: NbrId, p: Prefix): Rde {
    if p in s.topology then Commit(s, p, LinkDown(s.env, s.topology[p], n)) else s
  }

  /** The link to `n` is down for the first `k` prefixes of the walk. */
  function LinkDownWalk(s: Rde, n: NbrId, walk: seq<Prefix>, k: nat): Rde
    requires k <= |walk|
  {
    if k == 0 then s else LinkDownPrefix(LinkDownWalk(s, n, walk, k - 1), n, walk[k - 1])
  }

  /** Every reply `n` still owes is struck from its prefix, in the order of `ps`. */
  function StrikeReplies(topology: map<Prefix, Node>, n: NbrId, ps: seq<Prefix>): map<Prefix, Node> {
    if ps == [] then topology else Strike(StrikeReplies(topology, n, ps[..|ps| - 1]), n, ps[|ps| - 1])
  }

  function Strike(t: map<Prefix, Node>, n: NbrId, p: Prefix): map<Prefix, Node> {
    if p in t then t[p := t[p].(rijk := RemoveFirst(t[p].rijk, n))] else t
  }

  function Strikes(ps: seq<Prefix>, n: NbrId): seq<Logged> {
    seq(|ps|, i requires 0 <= i < |ps| => Logged(ps[i], Settle(n)))
  }

  /** Forget a neighbour.  Replies it owed are dropped without closing anything. */
  function DeleteNbr(s: Rde, n: NbrId): Rde {
    var ps := if n in s.owing then s.owing[n] else [];
    s.(env := s.env.(nbrs := s.env.nbrs - {n}, order := RemoveFirst(s.env.order, n)),
       topology := StrikeReplies(s.topology, n, ps),
       owing := s.owing - {n},
       log := s.log + Strikes(ps, n))
  }

  function AddNbr(s: Rde, n: NbrId, nbr: Nbr): Rde {
    s.(env := s.env.(nbrs := s.env.nbrs[n := nbr], order := s.env.order + [n]), owing := s.owing[n := []])
  }

  function Next(s: Rde, e: Event): Rde
    requires Enabled(s, e)
  {
    match e
    case Update(n, p, a) => Commit(s, p, CheckUpdate(s.env, Lookup(s.topology, p), n, Interpret(s.env, n, a)))
    case Query(n, p, a, sia) => Commit(s, p, CheckQuery(s.env, Lookup(s.topology, p), n, a, Interpret(s.env, n, a), sia))
    case Reply(n, p, a, sia) => Commit(s, p, CheckReply(s.env, Lookup(s.topology, p), n, Interpret(s.env, n, a), sia))
    case LinkDownNbr(n, walk) => LinkDownWalk(s, n, walk, |walk|)
    case NbrUp(n, nbr) => AddNbr(s, n, nbr)
    case NbrDown(n, walk) => DeleteNbr(LinkDownWalk(s, n, walk, |walk|), n)
  }

  // ---------------------------------------------------------------- invariants

  /** The kernel's routes for `p` according to the trace. */
  function Traced(log: seq<Logged>, p: Prefix): seq<Effect> {
    if log == [] then []
    else Traced(log[..|log| - 1], p) + if log[|log| - 1].prefix == p then [log[|log| - 1].effect] else []
  }

  /** How often `x` occurs. */
  function Count<T(==)>(s: seq<T>, x: T): nat {
    multiset(s)[x]
  }

  /** A reply outstanding for `p` and `n` is on both lists, the same number of times. */
  ghost predicate BothSides(s: Rde) {
    && s.owing.Keys == s.env.nbrs.Keys
    && forall n, p :: n in s.owing ==> Count(s.owing[n], p) == Count(OwedIn(Lookup(s.topology, p)), n)
  }

  ghost predicate PrefixesOk(s: Rde) {
    forall p :: p in s.topology ==> NodeOk(s.env, s.topology[p])
  }

  /** Replaying the kernel messages gives exactly the routes flagged as installed. */
  ghost predicate KernelMirrors(s: Rde) {
    forall p: Prefix :: KernelAfter({}, Traced(s.log, p)) == InstalledIn(Lookup(s.topology, p))
  }

  ghost predicate Inv(s: Rde) {
    EnvOk(s.env) && PrefixesOk(s) && BothSides(s) && KernelMirrors(s)
  }

  // ---------------------------------------------------------------- one prefix

  lemma {:induction false} NbrSideKeys(owing: map<NbrId, seq<Prefix>>, p: Prefix, fx: seq<Effect>)
    ensures NbrSide(owing, p, fx).Keys == owing.Keys
    decreases |fx|
  {
    if fx != [] { NbrSideKeys(owing, p, fx[..|fx| - 1]); }
  }

  lemma {:induction false} RemoveFirstCounts<T>(s: seq<T>, x: T)
    ensures multiset(RemoveFirst(s, x)) == multiset(s) - multiset{x}
  {
    if s != [] {
      assert s == [s[0]] + s[1..];
      if s[0] != x { RemoveFirstCounts(s[1..], x); }
    }
  }

  lemma CountAppend<T>(s: seq<T>, x: T, y: T)
    ensures Count(s + [x], y) == Count(s, y) + if x == y then 1 else 0
  {
  }

  lemma CountRemove<T>(s: seq<T>, x: T, y: T)
    ensures Count(RemoveFirst(s, x), y) == if x == y && Count(s, y) > 0 then Count(s, y) - 1 else Count(s, y)
  {
    RemoveFirstCounts(s, x);
  }

  lemma NbrSideStep(owing: map<NbrId, seq<Prefix>>, o: seq<NbrId>, p: Prefix, e: Effect, n: NbrId, q: Prefix)
    requires n in owing && Count(owing[n], p) == Count(o, n)
    ensures n in NbrSideApply(owing, p, e)
    ensures Count(NbrSideApply(owing, p, e)[n], p) == Count(OwedApply(o, e), n)
    ensures q != p ==> Count(NbrSideApply(owing, p, e)[n], q) == Count(owing[n], q)
  {
    match e
    case Owe(m) =>
      CountAppend(o, m, n);
      CountAppend(owing[n], p, p);
      CountAppend(owing[n], p, q);
    case Settle(m) =>
      CountRemove(o, m, n);
      CountRemove(owing[n], p, p);
      CountRemove(owing[n], p, q);
    case _ =>
  }

  /** Both sides of the bookkeeping follow the same effects. */
  lemma {:induction false} NbrSideCounts(owing: map<NbrId, seq<Prefix>>, o: seq<NbrId>, p: Prefix, fx: seq<Effect>, n: NbrId, q: Prefix)
    requires n in owing && Count(owing[n], p) == Count(o, n)
    ensures n in NbrSide(owing, p, fx)
    ensures Count(NbrSide(owing, p, fx)[n], p) == Count(OwedAfter(o, fx), n)
    ensures q != p ==> Count(NbrSide(owing, p, fx)[n], q) == Count(owing[n], q)
    decreases |fx|
  {
    if fx != [] {
      var fx' := fx[..|fx| - 1];
      NbrSideCounts(owing, o, p, fx', n, q);
      NbrSideStep(NbrSide(owing, p, fx'), OwedAfter(o, fx'), p, fx[|fx| - 1], n, q);
    }
  }

  lemma {:induction false} TracedAppend(log: seq<Logged>, p: Prefix, fx: seq<Effect>, q: Prefix)
    ensures Traced(log + Tagged(p, fx), q) == if q == p then Traced(log, q) + fx else Traced(log, q)
    decreases |fx|
  {
    if fx == [] {
      assert log + Tagged(p, fx) == log;
    } else {
      var fx' := fx[..|fx| - 1];
      TracedAppend(log, p, fx', q);
      var l := log + Tagged(p, fx);
      assert l[..|l| - 1] == log + Tagged(p, fx');
      assert fx == fx' + [fx[|fx| - 1]];
    }
  }

  lemma CommitBothSides(s: Rde, p: Prefix, o: Outcome)
    requires BothSides(s) && OwedAfter(OwedIn(Lookup(s.topology, p)), o.fx) == OwedIn(o.node)
    ensures BothSides(Commit(s, p, o))
  {
    var t := Commit(s, p, o);
    NbrSideKeys(s.owing, p, o.fx);
    forall n, q | n in t.owing ensures Count(t.owing[n], q) == Count(OwedIn(Lookup(t.topology, q)), n) {
      NbrSideCounts(s.owing, OwedIn(Lookup(s.topology, p)), p, o.fx, n, q);
      assert q != p ==> Lookup(t.topology, q) == Lookup(s.topology, q);
    }
  }

  lemma CommitKernel(s: Rde, p: Prefix, o: Outcome)
    requires KernelMirrors(s) && KernelAfter(InstalledIn(Lookup(s.topology, p)), o.fx) == InstalledIn(o.node)
    ensures KernelMirrors(Commit(s, p, o))
  {
    var t := Commit(s, p, o);
    forall q: Prefix ensures KernelAfter({}, Traced(t.log, q)) == InstalledIn(Lookup(t.topology, q)) {
      TracedAppend(s.log, p, o.fx, q);
      if q == p {
        ReplayConcat({}, [], Traced(s.log, p), o.fx);
      } else {
        assert Lookup(t.topology, q) == Lookup(s.topology, q);
      }
    }
  }

  /** A step that keeps its prefix and accounts for itself keeps the engine. */
  lemma CommitKeeps(s: Rde, p: Prefix, o: Outcome)
    requires Inv(s) && OutcomeOk(s.env, Lookup(s.topology, p), o)
    ensures Inv(Commit(s, p, o))
  {
    CommitBothSides(s, p, o);
    CommitKernel(s, p, o);
    assert PrefixesOk(Commit(s, p, o));
  }

  // ---------------------------------------------------------------- losing a link

  lemma LinkDownOk(env: Env, node: Node, n: NbrId)
    requires EnvOk(env) && n in env.nbrs && NodeOk(env, node)
    ensures OutcomeOk(env, Some(node), LinkDown(env, node, n))
    ensures var o := LinkDown(env, node, n); o.node.Some? ==> !HasRoute(o.node.value.routes, n)
  {
    if HasRoute(node.routes, n) {
      LinkDownRouteOk(env, node, n);
      LinkDownForgets(env, node, n);
      DeletedExplained(Some(node), LinkDownRoute(env, node, n));
    }
  }

  ghost predicate NoRouteFrom(routes: seq<Route>, n: NbrId) {
    forall i :: 0 <= i < |routes| ==> routes[i].nbr != n
  }

  /** Re-selecting, changing state and closing leave the list of neighbours alone. */
  lemma FsmForgets(env: Env, node: Node, e: DualEvent, n: NbrId)
    requires NoRouteFrom(node.routes, n)
    ensures NoRouteFrom(Fsm(env, node, e).node.routes, n)
  {
    var t := NextState(node.state, e);
    if t.Some? {
      UpdateFibForgets(env, node.(state := t.value), n);
    }
  }

  lemma UpdateFibForgets(env: Env, node: Node, n: NbrId)
    requires NoRouteFrom(node.routes, n)
    ensures NoRouteFrom(UpdateFib(env, node).node.routes, n)
  {
    FibOnlyFlags(env, FibBar(env, node.succ.fdistance), node.routes);
  }

  lemma LastReplyForgetsRoute(env: Env, node: Node, n: NbrId)
    requires NoRouteFrom(node.routes, n)
    ensures NoRouteFrom(LastReplyStep(env, node).node.routes, n)
  {
    var r := Select(env, node);
    var f := Select(env, Forget(node));
    var q := QueryAll(env, node).node;
    match node.state
    case Passive =>
    case Active0 => if r.None? { FsmForgets(env, q, Evt11, n); } else { FsmForgets(env, SetSuccessor(node, r), Evt14, n); }
    case Active1 => FsmForgets(env, SetSuccessor(node, f), Evt15, n);
    case Active2 => if r.None? { FsmForgets(env, q, Evt12, n); } else { FsmForgets(env, SetSuccessor(node, r), Evt16, n); }
    case Active3 => FsmForgets(env, SetSuccessor(node, f), Evt13, n);
  }

  lemma LoseLinkForgets(env: Env, node: Node, n: NbrId, oldFd: uint32)
    requires NoRouteFrom(node.routes, n)
    ensures NoRouteFrom(LoseLink(env, node, n, oldFd).node.routes, n)
  {
    FsmForgets(env, node, Evt9, n);
    FsmForgets(env, node, Evt10, n);
    FsmForgets(env, QueryAll(env, node).node, Evt4, n);
    UpdateFibForgets(env, SetSuccessor(node, Select(env, node)), n);
  }

  lemma LinkDownForgets(env: Env, node: Node, n: NbrId)
    requires Base(env, node)
    ensures var o := LinkDownRoute(env, node, n); o.node.Some? ==> NoRouteFrom(o.node.value.routes, n)
  {
    DropRouteOk(env, node, n);
    var a := DropRoute(node, n);
    assert NoRouteFrom(a.node.routes, n);
    LoseLinkForgets(env, a.node, n, node.succ.fdistance);
    var d := LoseLink(env, a.node, n, node.succ.fdistance).node;
    assert Absorb(d, n, None).node == d;
    LastReplyForgetsRoute(env, d.(rijk := RemoveFirst(d.rijk, n)), n);
  }

  /** The walk has dealt with the first `k` prefixes of `walk`. */
  ghost predicate WalkedTo(s: Rde, n: NbrId, walk: seq<Prefix>, k: nat, t: Rde)
    requires k <= |walk|
  {
    && Inv(t) && t.env == s.env && t.topology.Keys <= s.topology.Keys
    && forall p :: p in walk[..k] && p in t.topology ==> NoRouteFrom(t.topology[p].routes, n)
  }

  lemma LinkDownPrefixOk(s: Rde, n: NbrId, walk: seq<Prefix>, k: nat, t: Rde)
    requires k < |walk| && n in s.env.nbrs && WalkedTo(s, n, walk, k, t)
    ensures WalkedTo(s, n, walk, k + 1, LinkDownPrefix(t, n, walk[k]))
  {
    var p := walk[k];
    assert walk[..k + 1] == walk[..k] + [p];
    if p in t.topology {
      var o := LinkDown(t.env, t.topology[p], n);
      LinkDownOk(t.env, t.topology[p], n);
      CommitKeeps(t, p, o);
    }
  }

  lemma {:induction false} LinkDownWalkOk(s: Rde, n: NbrId, walk: seq<Prefix>, k: nat)
    requires Inv(s) && n in s.env.nbrs && k <= |walk|
    ensures WalkedTo(s, n, walk, k, LinkDownWalk(s, n, walk, k))
  {
    hide LinkDownPrefix, Inv;
    if k > 0 {
      LinkDownWalkOk(s, n, walk, k - 1);
      LinkDownPrefixOk(s, n, walk, k - 1, LinkDownWalk(s, n, walk, k - 1));
    }
  }

  // ---------------------------------------------------------------- losing a neighbour

  /** Striking a list of replies touches only the reply lists, and there only `n`. */
  lemma {:induction false} StrikeFacts(topology: map<Prefix, Node>, n: NbrId, ps: seq<Prefix>, p: Prefix)
    requires p in topology
    ensures var t := StrikeReplies(topology, n, ps);
            && t.Keys == topology.Keys
            && t[p] == topology[p].(rijk := t[p].rijk)
            && Count(t[p].rijk, n) == (if Count(ps, p) <= Count(topology[p].rijk, n) then Count(topology[p].rijk, n) - Count(ps, p) else 0)
            && (forall m :: m != n ==> Count(t[p].rijk, m) == Count(topology[p].rijk, m))
            && (Distinct(topology[p].rijk) ==> Distinct(t[p].rijk)) && |t[p].rijk| <= |topology[p].rijk|
    decreases |ps|
  {
    if ps != [] {
      var ps', q := ps[..|ps| - 1], ps[|ps| - 1];
      StrikeFacts(topology, n, ps', p);
      assert ps == ps' + [q];
      CountAppend(ps', q, p);
      var r := StrikeReplies(topology, n, ps')[p].rijk;
      forall m ensures Count(RemoveFirst(r, n), m) == if m == n && Count(r, m) > 0 then Count(r, m) - 1 else Count(r, m) {
        CountRemove(r, n, m);
      }
      RemoveFirstShrinks(r, n);
      if Distinct(r) { RemoveFirstFacts(r, n); }
    }
  }

  /** What a prefix needs from the neighbour table. */
  lemma NodeOkElsewhere(env: Env, env': Env, node: Node, n: NbrId)
    requires NodeOk(env, node) && NoRouteFrom(node.routes, n) && n !in node.rijk
    requires forall m :: m != n && m in env.nbrs ==> m in env'.nbrs && env'.nbrs[m] == env.nbrs[m]
    ensures NodeOk(env', node)
  {
    forall r | r in node.routes ensures r.nbr in env'.nbrs && (r.installed ==> !IsRedist(env', r.nbr)) {
      var i :| 0 <= i < |node.routes| && node.routes[i] == r;
    }
  }

  lemma StrikePrefixOk(s: Rde, n: NbrId, p: Prefix)
    requires Inv(s) && n in s.env.nbrs && p in s.topology && NoRouteFrom(s.topology[p].routes, n)
    ensures p in DeleteNbr(s, n).topology && NodeOk(DeleteNbr(s, n).env, DeleteNbr(s, n).topology[p])
  {
    StrikeFacts(s.topology, n, s.owing[n], p);
    var t := DeleteNbr(s, n);
    var before, after := s.topology[p], t.topology[p];
    assert Count(s.owing[n], p) == Count(OwedIn(Lookup(s.topology, p)), n);
    assert Count(after.rijk, n) == 0;
    forall m | m in after.rijk ensures m in before.rijk {
      assert Count(after.rijk, m) > 0;
    }
    if SuccessorCurrent(before) {
      var i :| 0 <= i < |before.routes| && DescribesRoute(before.succ, before.routes[i]);
      assert DescribesRoute(after.succ, after.routes[i]);
    }
    assert NodeOk(s.env, after);
    NodeOkElsewhere(s.env, t.env, after, n);
  }

  lemma {:induction false} StrikesSilent(log: seq<Logged>, ps: seq<Prefix>, n: NbrId, q: Prefix)
    ensures KernelAfter({}, Traced(log + Strikes(ps, n), q)) == KernelAfter({}, Traced(log, q))
    decreases |ps|
  {
    if ps == [] {
      assert log + Strikes(ps, n) == log;
    } else {
      var ps' := ps[..|ps| - 1];
      StrikesSilent(log, ps', n, q);
      var l := log + Strikes(ps, n);
      assert l[..|l| - 1] == log + Strikes(ps', n);
      assert l[|l| - 1] == Logged(ps[|ps| - 1], Settle(n));
      var before := Traced(log + Strikes(ps', n), q);
      ReplayConcat({}, [], before, [Settle(n)]);
      SilentReplay(KernelAfter({}, before), [], [Settle(n)]);
      assert before + [] == before;
    }
  }

  lemma DeleteNbrBothSides(s: Rde, n: NbrId)
    requires BothSides(s) && n in s.env.nbrs
    ensures BothSides(DeleteNbr(s, n))
  {
    var t := DeleteNbr(s, n);
    forall m, p | m in t.owing ensures Count(t.owing[m], p) == Count(OwedIn(Lookup(t.topology, p)), m) {
      assert Count(s.owing[m], p) == Count(OwedIn(Lookup(s.topology, p)), m);
      if p in s.topology {
        StrikeFacts(s.topology, n, s.owing[n], p);
      } else {
        StrikeKeys(s.topology, n, s.owing[n]);
      }
    }
  }

  lemma {:induction false} StrikeKeys(topology: map<Prefix, Node>, n: NbrId, ps: seq<Prefix>)
    ensures StrikeReplies(topology, n, ps).Keys == topology.Keys
    decreases |ps|
  {
    if ps != [] { StrikeKeys(topology, n, ps[..|ps| - 1]); }
  }

  /** A neighbour without routes can go. */
  lemma DeleteNbrKeeps(s: Rde, n: NbrId)
    requires Inv(s) && n in s.env.nbrs
    requires forall p :: p in s.topology ==> NoRouteFrom(s.topology[p].routes, n)
    ensures Inv(DeleteNbr(s, n))
  {
    var t := DeleteNbr(s, n);
    RemoveFirstFacts(s.env.order, n);
    StrikeKeys(s.topology, n, s.owing[n]);
    forall p | p in t.topology ensures NodeOk(t.env, t.topology[p]) { StrikePrefixOk(s, n, p); }
    DeleteNbrBothSides(s, n);
    forall q: Prefix ensures KernelAfter({}, Traced(t.log, q)) == InstalledIn(Lookup(t.topology, q)) {
      StrikesSilent(s.log, s.owing[n], n, q);
      if q in s.topology { StrikeFacts(s.topology, n, s.owing[n], q); }
    }
  }

  lemma AddNbrKeeps(s: Rde, n: NbrId, nbr: Nbr)
    requires Inv(s) && n !in s.env.nbrs
    ensures Inv(AddNbr(s, n, nbr))
  {
    var t := AddNbr(s, n, nbr);
    DistinctAppend(s.env.order, n);
    forall p | p in t.topology ensures NodeOk(t.env, t.topology[p]) && n !in t.topology[p].rijk {
      var node := s.topology[p];
      forall i | 0 <= i < |node.routes| ensures node.routes[i].nbr != n { assert node.routes[i] in node.routes; }
      NodeOkElsewhere(s.env, t.env, node, n);
    }
  }

  // ---------------------------------------------------------------- every run

  lemma PrefixEventKeeps(s: Rde, e: Event)
    requires Inv(s) && Enabled(s, e) && (e.Update? || e.Query? || e.Reply?)
    ensures Inv(Next(s, e))
  {
    var prev := Lookup(s.topology, e.p);
    var info := Interpret(s.env, e.n, e.advert);
    match e
    case Update(n, p, a) => CheckUpdateOk(s.env, prev, n, info); CommitKeeps(s, p, CheckUpdate(s.env, prev, n, info));
    case Query(n, p, a, sia) => CheckQueryOk(s.env, prev, n, a, info, sia); CommitKeeps(s, p, CheckQuery(s.env, prev, n, a, info, sia));
    case Reply(n, p, a, sia) =>
      if prev.Some? { CheckReplyOk(s.env, prev.value, n, info, sia); }
      CommitKeeps(s, p, CheckReply(s.env, prev, n, info, sia));
  }

  lemma NextKeeps(s: Rde, e: Event)
    requires Inv(s) && Enabled(s, e)
    ensures Inv(Next(s, e))
  {
    match e
    case LinkDownNbr(n, walk) => LinkDownWalkOk(s, n, walk, |walk|);
    case NbrDown(n, walk) =>
      LinkDownWalkOk(s, n, walk, |walk|);
      assert walk[..|walk|] == walk;
      DeleteNbrKeeps(LinkDownWalk(s, n, walk, |walk|), n);
    case NbrUp(n, nbr) => AddNbrKeeps(s, n, nbr);
    case _ => PrefixEventKeeps(s, e);
  }

  ghost predicate Init(s: Rde) {
    && EnvOk(s.env) && s.topology == map[] && s.log == []
    && s.owing.Keys == s.env.nbrs.Keys && forall n :: n in s.owing ==> s.owing[n] == []
  }

  ghost predicate Run(states: seq<Rde>, events: seq<Event>) {
    && |states| == |events| + 1 && Init(states[0])
    && forall i :: 0 <= i < |events| ==> Enabled(states[i], events[i]) && states[i + 1] == Next(states[i], events[i])
  }

  /** In every run of updates, queries, replies, lost links, new and lost
      neighbours: every prefix is consistent, outstanding replies are on both
      lists, and the kernel messages replay to the installed routes. */
  lemma {:induction false} RunKeepsInv(states: seq<Rde>, events: seq<Event>, k: nat)
    requires Run(states, events) && k < |states|
    ensures Inv(states[k])
  {
    if k > 0 {
      RunKeepsInv(states, events, k - 1);
      NextKeeps(states[k - 1], events[k - 1]);
    }
  }

  /** What the invariant means for a reader of the two lists and the kernel. */
  lemma RunSafety(states: seq<Rde>, events: seq<Event>, k: nat, p: Prefix)
    requires Run(states, events) && k < |states| && p in states[k].topology
    ensures var node := states[k].topology[p];
            && (node.state == Passive ==> node.rijk == [] && SuccessorCurrent(node))
            && KernelAfter({}, Traced(states[k].log, p)) == InstalledSet(node.routes)
            && (node.state != Passive ==> InstalledSet(node.routes) == {})
            && (forall n :: n in states[k].owing ==> Count(node.rijk, n) <= 1 && (n in node.rijk <==> p in states[k].owing[n]))
  {
    RunKeepsInv(states, events, k);
    var s := states[k];
    var node := s.topology[p];
    forall n | n in s.owing ensures Count(node.rijk, n) <= 1 && (n in node.rijk <==> p in s.owing[n]) {
      assert Count(s.owing[n], p) == Count(OwedIn(Lookup(s.topology, p)), n);
      DistinctCount(node.rijk, n);
    }
    if node.state != Passive {
      assert InstalledSet(node.routes) == {} by {
        forall i | 0 <= i < |node.routes| ensures !node.routes[i].installed { assert node.routes[i] in node.routes; }
      }
    }
  }

  lemma {:induction false} DistinctCount<T>(s: seq<T>, x: T)
    requires Distinct(s)
    ensures Count(s, x) <= 1
  {
    if s != [] {
      assert s == [s[0]] + s[1..];
      DistinctCount(s[1..], x);
      if s[0] == x {
        assert x !in s[1..];
      }
    }
  }
}
