/** From the routes DUAL flags as installed to the kernel route table: the
    messages name a prefix, a priority and a next hop, not a neighbour. */
module DualFib {
  import opened Prelude
  import opened DualTypes
  import opened DualNode
  import opened DualInvariant
  import K = KernelRoutes

  const MAX_PRIORITY := 63

  /** The configured priorities of internal and external routes. */
  datatype Priorities = Priorities(internal: uint8, external: uint8)

  predicate PrioritiesOk(c: Priorities) {
    0 < c.internal <= MAX_PRIORITY && 0 < c.external <= MAX_PRIORITY
  }

  function KeyOf(c: Priorities, p: Prefix, path: Path): K.Key {
    K.Key(p, if path.rtype == External then c.external else c.internal, path.nexthop)
  }

  function KeysOf(c: Priorities, p: Prefix, paths: set<Path>): set<K.Key> {
    set path | path in paths :: KeyOf(c, p, path)
  }

  predicate Writes(c: Priorities, p: Prefix, e: Effect, k: K.Key) {
    e.KernelChange? && KeyOf(c, p, e.path) == k
  }

  predicate Erases(c: Priorities, p: Prefix, e: Effect, k: K.Key) {
    e.KernelDelete? && KeyOf(c, p, e.path) == k
  }

  function KeyApply(c: Priorities, p: Prefix, ks: set<K.Key>, e: Effect): set<K.Key> {
    match e
    case KernelChange(path) => ks + {KeyOf(c, p, path)}
    case KernelDelete(path) => ks - {KeyOf(c, p, path)}
    case _ => ks
  }

  /** The keys of prefix `p` that the messages leave, from `ks` on. */
  function KeysAfter(c: Priorities, p: Prefix, ks: set<K.Key>, fx: seq<Effect>): set<K.Key> {
    if fx == [] then ks else KeyApply(c, p, KeysAfter(c, p, ks, fx[..|fx| - 1]), fx[|fx| - 1])
  }

  // ---------------------------------------------------------------- message by message

  /** Another path keeps the key that is being deleted. */
  predicate Orphans(c: Priorities, p: Prefix, paths: set<Path>, e: Effect) {
    e.KernelDelete? && exists x :: x in paths && x != e.path && KeyOf(c, p, x) == KeyOf(c, p, e.path)
  }

  lemma OneMessage(c: Priorities, p: Prefix, ks: set<K.Key>, paths: set<Path>, e: Effect)
    requires ks <= KeysOf(c, p, paths)
    ensures KeyApply(c, p, ks, e) <= KeysOf(c, p, KernelApply(paths, e))
    ensures ks == KeysOf(c, p, paths) ==>
              (KeyApply(c, p, ks, e) == KeysOf(c, p, KernelApply(paths, e)) <==> !Orphans(c, p, paths, e))
  {
    var after := KernelApply(paths, e);
    forall k | k in KeyApply(c, p, ks, e) ensures k in KeysOf(c, p, after) {
      if e.KernelChange? && k == KeyOf(c, p, e.path) {
        assert e.path in after;
      } else {
        var x :| x in paths && KeyOf(c, p, x) == k;
        assert x in after;
      }
    }
    if ks == KeysOf(c, p, paths) && !Orphans(c, p, paths, e) {
      forall k | k in KeysOf(c, p, after) ensures k in KeyApply(c, p, ks, e) {
        var x :| x in after && KeyOf(c, p, x) == k;
        assert x in paths || (e.KernelChange? && x == e.path);
      }
    }
    if Orphans(c, p, paths, e) {
      var x :| x in paths && x != e.path && KeyOf(c, p, x) == KeyOf(c, p, e.path);
      assert x in after && KeyOf(c, p, x) in KeysOf(c, p, after);
    }
  }

  /** The kernel never keeps a key that no installed route has. */
  lemma {:induction false} NoStaleKey(c: Priorities, p: Prefix, ks: set<K.Key>, paths: set<Path>, fx: seq<Effect>)
    requires ks <= KeysOf(c, p, paths)
    ensures KeysAfter(c, p, ks, fx) <= KeysOf(c, p, KernelAfter(paths, fx))
    decreases |fx|
  {
    hide KeysOf, KeyApply, KernelApply;
    if fx != [] {
      var before := fx[..|fx| - 1];
      NoStaleKey(c, p, ks, paths, before);
      OneMessage(c, p, KeysAfter(c, p, ks, before), KernelAfter(paths, before), fx[|fx| - 1]);
    }
  }

  ghost predicate MirroredAfter(c: Priorities, p: Prefix, fx: seq<Effect>) {
    KeysAfter(c, p, {}, fx) == KeysOf(c, p, KernelAfter({}, fx))
  }

  /** The keys are those of the installed paths after each of the first `n`
      messages if and only if none of them deletes a key that another installed
      path still has. */
  lemma {:induction false} AlwaysMirroredExact(c: Priorities, p: Prefix, fx: seq<Effect>, n: nat)
    requires n <= |fx|
    ensures (forall i :: 0 <= i <= n ==> MirroredAfter(c, p, fx[..i]))
            <==> forall i :: 0 <= i < n ==> !Orphans(c, p, KernelAfter({}, fx[..i]), fx[i])
  {
    hide KeysOf, KeyApply, KernelAfter, Orphans, MirroredAfter;
    if n == 0 {
      assert MirroredAfter(c, p, fx[..0]) by { NothingMirrored(c, p); }
    } else {
      AlwaysMirroredExact(c, p, fx, n - 1);
      if MirroredAfter(c, p, fx[..n - 1]) {
        assert fx[..n][..n - 1] == fx[..n - 1];
        LastMessage(c, p, fx[..n]);
      }
    }
  }

  lemma NothingMirrored(c: Priorities, p: Prefix)
    ensures MirroredAfter(c, p, [])
  {}

  lemma LastMessage(c: Priorities, p: Prefix, fx: seq<Effect>)
    requires fx != [] && MirroredAfter(c, p, fx[..|fx| - 1])
    ensures MirroredAfter(c, p, fx) <==> !Orphans(c, p, KernelAfter({}, fx[..|fx| - 1]), fx[|fx| - 1])
  {
    hide KeysOf, KeyApply, KernelApply, Orphans;
    var before := fx[..|fx| - 1];
    OneMessage(c, p, KeysAfter(c, p, {}, before), KernelAfter({}, before), fx[|fx| - 1]);
  }

  /** Who said the last word on a key. */
  lemma {:induction false} LastWord(c: Priorities, p: Prefix, ks: set<K.Key>, fx: seq<Effect>, k: K.Key)
    ensures k in KeysAfter(c, p, ks, fx) <==>
            || (k in ks && forall j :: 0 <= j < |fx| ==> !Erases(c, p, fx[j], k))
            || (exists i :: 0 <= i < |fx| && Writes(c, p, fx[i], k) && forall j :: i < j < |fx| ==> !Erases(c, p, fx[j], k))
    decreases |fx|
  {
    if fx != [] {
      var n := |fx| - 1;
      LastWord(c, p, ks, fx[..n], k);
      assert forall j :: 0 <= j < n ==> fx[..n][j] == fx[j];
    }
  }

  // ---------------------------------------------------------------- one pass over the routes

  /** Once set, the flag for changed metrics stays, so every chosen route is sent
      again in every pass. */
  predicate AllChanged(routes: seq<Route>) {
    forall r :: r in routes ==> r.changed
  }

  function RouteKey(c: Priorities, p: Prefix, r: Route): K.Key {
    KeyOf(c, p, PathOf(r))
  }

  predicate Kept(c: Priorities, p: Prefix, after: seq<Route>, i: nat, k: K.Key)
    requires i < |after|
  {
    after[i].installed && RouteKey(c, p, after[i]) == k
  }

  predicate Dropped(c: Priorities, p: Prefix, before: seq<Route>, after: seq<Route>, i: nat, k: K.Key)
    requires i < |before| == |after|
  {
    before[i].installed && !after[i].installed && RouteKey(c, p, before[i]) == k
  }

  /** Route `j` is dropped behind the last route that keeps its key. */
  predicate Shadows(c: Priorities, p: Prefix, before: seq<Route>, after: seq<Route>, j: nat)
    requires j < |before| == |after|
  {
    var k := RouteKey(c, p, before[j]);
    && Dropped(c, p, before, after, j, k)
    && (exists i :: 0 <= i < j && Kept(c, p, after, i, k))
    && forall i :: j < i < |after| ==> !Kept(c, p, after, i, k)
  }

  predicate NoneShadowed(c: Priorities, p: Prefix, before: seq<Route>, after: seq<Route>)
    requires |before| == |after|
  {
    forall j :: 0 <= j < |before| ==> !Shadows(c, p, before, after, j)
  }

  /** The keys after the pass has dealt with the first `n` routes. */
  predicate Ends(c: Priorities, p: Prefix, before: seq<Route>, after: seq<Route>, ks: set<K.Key>, n: nat, k: K.Key)
    requires n <= |before| == |after|
  {
    || (k in ks && forall j :: 0 <= j < n ==> !Dropped(c, p, before, after, j, k))
    || (exists i :: 0 <= i < n && Kept(c, p, after, i, k) && forall j :: i < j < n ==> !Dropped(c, p, before, after, j, k))
  }

  lemma MessageKeys(c: Priorities, p: Prefix, ks: set<K.Key>, fx: seq<Effect>, m: seq<Effect>)
    requires |m| <= 1
    ensures KeysAfter(c, p, ks, fx + m) ==
            if m == [] then KeysAfter(c, p, ks, fx) else KeyApply(c, p, KeysAfter(c, p, ks, fx), m[0])
  {
    if m == [] { assert fx + m == fx; } else { assert (fx + m)[..|fx|] == fx; }
  }

  /** What one route adds: it keeps its key, drops it, or is left alone. */
  lemma PassMessage(c: Priorities, p: Prefix, env: Env, bar: Bar, routes: seq<Route>, i: nat)
    requires i < |routes| && AllChanged(routes) && KnownNbrs(env, routes)
    ensures var m, after := FibMessage(env, bar, routes, i), FibRoutes(env, bar, routes); var k := RouteKey(c, p, routes[i]);
            && |m| <= 1 && RouteKey(c, p, after[i]) == k
            && (m != [] && m[0].KernelChange? ==> Kept(c, p, after, i, k) && Writes(c, p, m[0], k))
            && (m != [] && !m[0].KernelChange? ==> Dropped(c, p, routes, after, i, k) && Erases(c, p, m[0], k))
            && (m == [] ==> !after[i].installed && !routes[i].installed)
  {
    assert routes[i] in routes;
  }

  lemma {:induction false} PassKeys(c: Priorities, p: Prefix, env: Env, bar: Bar, routes: seq<Route>, ks: set<K.Key>, n: nat, k: K.Key)
    requires n <= |routes| && AllChanged(routes) && KnownNbrs(env, routes)
    ensures k in KeysAfter(c, p, ks, FibMessages(env, bar, routes, n))
            <==> Ends(c, p, routes, FibRoutes(env, bar, routes), ks, n, k)
  {
    hide FibMessage, FibRoute, KnownNbrs, AllChanged;
    if n > 0 {
      var m, after := FibMessage(env, bar, routes, n - 1), FibRoutes(env, bar, routes);
      PassKeys(c, p, env, bar, routes, ks, n - 1, k);
      PassMessage(c, p, env, bar, routes, n - 1);
      MessageKeys(c, p, ks, FibMessages(env, bar, routes, n - 1), m);
      if Kept(c, p, after, n - 1, k) { assert Ends(c, p, routes, after, ks, n, k); }
    }
  }

  /** The last of the first `n` routes that keeps the key. */
  lemma {:induction false} LastKept(c: Priorities, p: Prefix, after: seq<Route>, n: nat, k: K.Key) returns (i: nat)
    requires n <= |after| && exists i :: 0 <= i < n && Kept(c, p, after, i, k)
    ensures i < n && Kept(c, p, after, i, k) && forall j :: i < j < n ==> !Kept(c, p, after, j, k)
  {
    i := n - 1;
    if !Kept(c, p, after, n - 1, k) { i := LastKept(c, p, after, n - 1, k); }
  }

  /** Refreshing the table of a passive prefix leaves exactly the keys of its
      installed routes, whatever was lost before, if and only if no route is
      dropped behind the last one that keeps its key. */
  lemma PassExact(c: Priorities, p: Prefix, env: Env, node: Node, ks: set<K.Key>)
    requires node.state == Passive && !AttachedSuccessor(env, node) && AllChanged(node.routes)
    requires RoutesOk(env, node.routes) && RijkOk(env, node.rijk)
    requires ks <= KeysOf(c, p, InstalledSet(node.routes))
    ensures var u := UpdateFib(env, node);
            KeysAfter(c, p, ks, u.fx) == KeysOf(c, p, InstalledSet(u.node.routes))
            <==> NoneShadowed(c, p, node.routes, u.node.routes)
  {
    hide FibMessages, KernelAfter, KeysAfter, FibRoute, Kept, Dropped;
    var u, before := UpdateFib(env, node), node.routes;
    var after := u.node.routes;
    UpdateFibOk(env, node);
    NoStaleKey(c, p, ks, InstalledSet(before), u.fx);
    forall k ensures k in KeysAfter(c, p, ks, u.fx) <==> Ends(c, p, before, after, ks, |before|, k) {
      PassKeys(c, p, env, FibBar(env, node.succ.fdistance), before, ks, |before|, k);
    }
    forall k ensures k in KeysOf(c, p, InstalledSet(after)) <==> exists i :: 0 <= i < |after| && Kept(c, p, after, i, k) {
      KeysKept(c, p, after, k);
    }
    if j :| 0 <= j < |before| && Shadows(c, p, before, after, j) {
      ShadowedIsLost(c, p, before, after, ks, j);
    } else {
      forall k | k in KeysOf(c, p, InstalledSet(after)) ensures Ends(c, p, before, after, ks, |before|, k) {
        KeptEnds(c, p, before, after, ks, k);
      }
    }
  }

  lemma KeysKept(c: Priorities, p: Prefix, after: seq<Route>, k: K.Key)
    ensures k in KeysOf(c, p, InstalledSet(after)) <==> exists i :: 0 <= i < |after| && Kept(c, p, after, i, k)
  {
    if k in KeysOf(c, p, InstalledSet(after)) {
      var x :| x in InstalledSet(after) && KeyOf(c, p, x) == k;
      var i :| 0 <= i < |after| && after[i].installed && PathOf(after[i]) == x;
      assert Kept(c, p, after, i, k);
    }
    if i :| 0 <= i < |after| && Kept(c, p, after, i, k) {
      assert PathOf(after[i]) in InstalledSet(after);
    }
  }

  lemma ShadowedIsLost(c: Priorities, p: Prefix, before: seq<Route>, after: seq<Route>, ks: set<K.Key>, j: nat)
    requires j < |before| == |after| && Shadows(c, p, before, after, j)
    ensures var k := RouteKey(c, p, before[j]);
            !Ends(c, p, before, after, ks, |before|, k) && exists i :: 0 <= i < |after| && Kept(c, p, after, i, k)
  {
    var k := RouteKey(c, p, before[j]);
    var i :| 0 <= i < j && Kept(c, p, after, i, k);
    assert Dropped(c, p, before, after, j, k);
  }

  lemma KeptEnds(c: Priorities, p: Prefix, before: seq<Route>, after: seq<Route>, ks: set<K.Key>, k: K.Key)
    requires |before| == |after| && exists i :: 0 <= i < |after| && Kept(c, p, after, i, k)
    requires NoneShadowed(c, p, before, after)
    ensures Ends(c, p, before, after, ks, |before|, k)
  {
    var i := LastKept(c, p, after, |after|, k);
    forall j | i < j < |before| ensures !Dropped(c, p, before, after, j, k) {
      assert !Shadows(c, p, before, after, j);
    }
  }
}
