/** A prefix of the topology table as the engine holds it: a record whose state,
    route list, reply list and successor are updated in place.  Every method is
    proved to do what the function of the same purpose in DualNode describes. */
module DualPrefix {
  import opened Prelude
  import opened DualTypes
  import N = DualNode

  /** One row of the state table.  No old state stands for every active one; no
      new state means the state is kept. */
  datatype Row = Row(from: Option<DualState>, event: DualEvent, to: Option<DualState>)

  const FSM_TABLE: seq<Row> := [
    Row(Some(Passive), Evt3, Some(Active3)),
    Row(Some(Passive), Evt4, Some(Active1)),
    Row(Some(Active0), Evt5, Some(Active2)),
    Row(Some(Active0), Evt11, Some(Active1)),
    Row(Some(Active0), Evt14, Some(Passive)),
    Row(Some(Active1), Evt5, Some(Active2)),
    Row(Some(Active1), Evt9, Some(Active0)),
    Row(Some(Active1), Evt15, Some(Passive)),
    Row(Some(Active2), Evt12, Some(Active3)),
    Row(Some(Active2), Evt16, Some(Passive)),
    Row(Some(Active3), Evt10, Some(Active2)),
    Row(Some(Active3), Evt13, Some(Passive)),
    Row(None, Evt6, None)
  ]

  predicate Hits(r: Row, s: DualState, e: DualEvent) {
    r.event == e && if r.from.Some? then r.from.value == s else s != Passive
  }

  /** The first matching row decides; without one the event is ignored. */
  method ScanTable(s: DualState, e: DualEvent) returns (t: Option<DualState>)
    ensures t == N.NextState(s, e)
  {
    for i := 0 to |FSM_TABLE|
      invariant forall j :: 0 <= j < i ==> !Hits(FSM_TABLE[j], s, e)
    {
      if Hits(FSM_TABLE[i], s, e) {
        return Some(if FSM_TABLE[i].to.Some? then FSM_TABLE[i].to.value else s);
      }
    }
    Unlisted(s, e);
    return None;
  }

  /** An event that no row lists has no next state. */
  lemma Unlisted(s: DualState, e: DualEvent)
    requires forall j :: 0 <= j < |FSM_TABLE| ==> !Hits(FSM_TABLE[j], s, e)
    ensures N.NextState(s, e) == None
  {
    assert !Hits(FSM_TABLE[0], s, e);
    assert !Hits(FSM_TABLE[1], s, e);
    assert !Hits(FSM_TABLE[2], s, e);
    assert !Hits(FSM_TABLE[3], s, e);
    assert !Hits(FSM_TABLE[4], s, e);
    assert !Hits(FSM_TABLE[5], s, e);
    assert !Hits(FSM_TABLE[6], s, e);
    assert !Hits(FSM_TABLE[7], s, e);
    assert !Hits(FSM_TABLE[8], s, e);
    assert !Hits(FSM_TABLE[9], s, e);
    assert !Hits(FSM_TABLE[10], s, e);
    assert !Hits(FSM_TABLE[11], s, e);
    assert !Hits(FSM_TABLE[12], s, e);
  }

  class RtNode {
    var state: DualState
    var routes: seq<Route>
    var rijk: seq<NbrId>
    var succ: Successor

    ghost function View(): Node
      reads this
    {
      Node(state, routes, rijk, succ)
    }

    constructor ()
      ensures View() == NEW_NODE
    {
      state, routes, rijk, succ := Passive, [], [], NO_SUCCESSOR;
    }

    // -------------------------------------------------------------- routes

    method FindRoute(n: NbrId) returns (i: nat)
      ensures i == N.RouteIndex(routes, n)
    {
      i := 0;
      while i < |routes| && routes[i].nbr != n
        invariant i <= |routes| && forall j :: 0 <= j < i ==> routes[j].nbr != n
      {
        i := i + 1;
      }
    }

    method NewRoute(n: NbrId, info: Info)
      modifies this
      ensures View() == old(View()).(routes := N.InsertRoute(old(routes), N.NewRoute(n, info)))
    {
      var i := 0;
      while i < |routes| && routes[i].nexthop <= info.nexthop
        invariant i <= |routes| && forall j :: 0 <= j < i ==> routes[j].nexthop <= info.nexthop
      {
        i := i + 1;
      }
      assert i == N.InsertIndex(routes, info.nexthop);
      routes := routes[..i] + [N.NewRoute(n, info)] + routes[i..];
    }

    method DeleteRoute(n: NbrId) returns (fx: seq<Effect>)
      modifies this
      ensures Step(View(), fx) == N.DropRoute(old(View()), n)
    {
      fx := [];
      var i := FindRoute(n);
      if i < |routes| {
        if routes[i].installed { fx := [KernelDelete(PathOf(routes[i]))]; }
        routes := routes[..i] + routes[i + 1..];
      }
    }

    method Absorb(n: NbrId, info: Option<Info>) returns (fx: seq<Effect>)
      modifies this
      ensures Step(View(), fx) == N.Absorb(old(View()), n, info)
    {
      fx := [];
      if info.None? {
        fx := DeleteRoute(n);
      } else {
        var i := FindRoute(n);
        if i < |routes| {
          routes := routes[i := N.Refresh(routes[i], info.value)];
        } else {
          NewRoute(n, info.value);
        }
      }
    }

    // -------------------------------------------------------------- choosing

    /** First pass: attached networks win; note whether all routes are external. */
    method FindAttached(env: Env) returns (a: Option<Route>, externalOnly: bool)
      ensures a == var i := N.FirstAttached(env, routes, |routes|); if i.Some? then Some(routes[i.value]) else None
      ensures a.None? ==> externalOnly == N.ExternalOnly(routes)
    {
      externalOnly := true;
      for i := 0 to |routes|
        invariant N.FirstAttached(env, routes, i) == None
        invariant externalOnly <==> forall j :: 0 <= j < i ==> routes[j].rtype == External
      {
        if routes[i].rtype == Internal {
          if IsLocal(env, routes[i].nbr) {
            FirstIsFirst(env, routes, i, |routes|);
            return Some(routes[i]), externalOnly;
          }
          externalOnly := false;
        }
      }
      a := None;
    }

    /** Second pass: the nearest feasible route of the preferred type. */
    method GetSuccessor(env: Env) returns (r: Option<Route>)
      ensures r == N.Select(env, View())
    {
      var externalOnly;
      r, externalOnly := FindAttached(env);
      if r.Some? {
        return;
      }
      var distance := INFINITE.delay;
      ghost var best: Option<nat> := None;
      for i := 0 to |routes|
        invariant best == N.Nearest(routes, succ.fdistance, i)
        invariant r == if best.Some? then Some(routes[best.value]) else None
        invariant distance == if r.Some? then r.value.distance else INFINITE.delay
      {
        if routes[i].rtype == External && !externalOnly {
          continue;
        }
        if routes[i].rdistance < succ.fdistance && routes[i].distance < distance {
          distance := routes[i].distance;
          r, best := Some(routes[i]), Some(i);
        }
      }
    }

    method SetSuccessor(r: Option<Route>)
      modifies this
      ensures View() == N.SetSuccessor(old(View()), r)
    {
      if r.None? {
        succ := NO_SUCCESSOR;
      } else {
        var s := r.value;
        succ := Successor(Some(s.nbr), s.rtype, s.distance, s.rdistance, s.metric, s.emetric);
      }
    }

    // -------------------------------------------------------------- the forwarding table

    method UpdateFib(env: Env) returns (fx: seq<Effect>)
      modifies this
      ensures Step(View(), fx) == N.UpdateFib(env, old(View()))
    {
      fx := [];
      if state == Passive {
        if succ.nbr.Some? && IsLocal(env, succ.nbr.value) {
          return;
        }
        fx := Install(env);
      } else {
        fx := UninstallAll();
      }
    }

    method Install(env: Env) returns (fx: seq<Effect>)
      modifies this
      ensures View() == old(View()).(routes := N.FibRoutes(env, N.FibBar(env, old(succ.fdistance)), old(routes)))
      ensures fx == N.FibMessages(env, N.FibBar(env, old(succ.fdistance)), old(routes), |old(routes)|)
    {
      ghost var was := routes;
      ghost var bar := N.FibBar(env, succ.fdistance);
      fx := [];
      var installed := 0;
      for i := 0 to |routes|
        invariant |routes| == |was| && View() == old(View()).(routes := routes)
        invariant installed == Min(N.EligibleBefore(env, bar, was, i), env.maxPaths)
        invariant fx == N.FibMessages(env, bar, was, i)
        invariant forall j :: 0 <= j < i ==> routes[j] == N.FibRoute(env, bar, was, j)
        invariant forall j :: i <= j < |was| ==> routes[j] == was[j]
      {
        var r := routes[i];
        if IsRedist(env, r.nbr) {
          continue;
        }
        if r.rdistance >= succ.fdistance || r.distance > succ.fdistance * env.variance % 0x1_0000_0000
           || installed >= env.maxPaths
        {
          if r.installed { fx := fx + [KernelDelete(PathOf(r))]; }
          routes := routes[i := r.(installed := false)];
        } else {
          installed := installed + 1;
          if !r.installed || r.changed { fx := fx + [KernelChange(PathOf(r))]; }
          routes := routes[i := r.(installed := true)];
        }
      }
      assert routes == N.FibRoutes(env, bar, was);
    }

    method UninstallAll() returns (fx: seq<Effect>)
      modifies this
      ensures View() == old(View()).(routes := N.Uninstalled(old(routes)))
      ensures fx == N.KernelDeletes(old(routes), |old(routes)|)
    {
      ghost var was := routes;
      fx := [];
      for i := 0 to |routes|
        invariant |routes| == |was| && View() == old(View()).(routes := routes)
        invariant fx == N.KernelDeletes(was, i)
        invariant forall j :: 0 <= j < i ==> routes[j] == was[j].(installed := false)
        invariant forall j :: i <= j < |was| ==> routes[j] == was[j]
      {
        if routes[i].installed {
          fx := fx + [KernelDelete(PathOf(routes[i]))];
          routes := routes[i := routes[i].(installed := false)];
        }
      }
      assert routes == N.Uninstalled(was);
    }

    // -------------------------------------------------------------- states and queries

    method Fsm(env: Env, e: DualEvent) returns (fx: seq<Effect>)
      modifies this
      ensures Step(View(), fx) == N.Fsm(env, old(View()), e)
    {
      fx := [];
      var was := state;
      var t := ScanTable(state, e);
      if t.None? {
        return;
      }
      state := t.value;
      if was != state && (was == Passive || state == Passive) {
        fx := UpdateFib(env);
      }
    }

    method QueryAll(env: Env) returns (fx: seq<Effect>)
      modifies this
      ensures Step(View(), fx) == N.QueryAll(env, old(View()))
    {
      var a := N.MarkActive(Advertise());
      ghost var was := View();
      fx := [];
      for i := 0 to |env.ifaces|
        invariant View() == was && fx == N.Queries(env, succ.nbr, a, i)
      {
        if !N.Blocked(env, succ.nbr, Some(env.ifaces[i])) {
          fx := fx + [SendQuery(env.ifaces[i].id, a)];
        }
      }
      ghost var sent := fx;
      for i := 0 to |env.order|
        invariant View() == was.(rijk := was.rijk + N.Targets(env, succ.nbr, i))
        invariant fx == sent + N.Owes(N.Targets(env, succ.nbr, i))
      {
        var n := env.order[i];
        if n in env.nbrs && !env.nbrs[n].self && !N.Blocked(env, succ.nbr, env.nbrs[n].iface) {
          rijk := rijk + [n];
          fx := fx + [Owe(n)];
        }
      }
    }

    function Advertise(): Advert
      reads this
      ensures Advertise() == N.SuccessorAdvert(View())
    {
      if succ.nbr.None? then Advert(Internal, 0, INFINITE, NO_EMETRIC)
      else Advert(succ.rtype, 0, succ.metric, if succ.rtype == External then succ.emetric else NO_EMETRIC)
    }

    method UpdateAll(env: Env, a: Advert) returns (fx: seq<Effect>)
      ensures fx == N.UpdateAll(env, View(), a)
    {
      fx := [];
      for i := 0 to |env.ifaces|
        invariant fx == N.Updates(env, succ.nbr, a, i)
      {
        if !N.Blocked(env, succ.nbr, Some(env.ifaces[i])) {
          fx := fx + [SendUpdate(env.ifaces[i].id, N.Capped(env, a))];
        }
      }
    }

    method GoActive(env: Env, e: DualEvent) returns (fx: seq<Effect>)
      modifies this
      ensures Step(View(), fx) == N.GoActive(env, old(View()), e)
    {
      fx := QueryAll(env);
      var f := Fsm(env, e);
      fx := fx + f;
    }

    // -------------------------------------------------------------- closing

    /** The new successor is announced; the neighbour whose query started this gets its reply first. */
    method Settle(env: Env, r: Option<Route>, e: DualEvent, reply: bool) returns (fx: seq<Effect>)
      modifies this
      ensures Step(View(), fx) == if reply then N.SettledWithReply(env, old(View()), r, e) else N.Settled(env, old(View()), r, e)
    {
      var oldSuccessor := succ.nbr;
      SetSuccessor(r);
      var a := Advertise();
      fx := [];
      if reply {
        a := N.MarkActive(a);
        if oldSuccessor.Some? {
          fx := [SendReply(oldSuccessor.value, N.Capped(env, a), false)];
        }
      }
      var u := UpdateAll(env, a);
      var f := Fsm(env, e);
      fx := fx + u + f;
    }

    method LastReplyStep(env: Env) returns (fx: seq<Effect>)
      modifies this
      ensures Step(View(), fx) == N.LastReplyStep(env, old(View()))
    {
      hide N.Settled, N.SettledWithReply, N.GoActive, N.Select;
      fx := [];
      match state
      case Passive =>
      case Active0 =>
        var r := GetSuccessor(env);
        if r.None? { fx := GoActive(env, Evt11); } else { fx := Settle(env, r, Evt14, false); }
      case Active1 =>
        var r := SelectAnew(env);
        fx := Settle(env, r, Evt15, false);
      case Active2 =>
        var r := GetSuccessor(env);
        if r.None? { fx := GoActive(env, Evt12); } else { fx := Settle(env, r, Evt16, true); }
      case Active3 =>
        var r := SelectAnew(env);
        fx := Settle(env, r, Evt13, true);
    }

    /** The choice made with the feasible distance forgotten. */
    method SelectAnew(env: Env) returns (r: Option<Route>)
      modifies this
      ensures View() == old(View()) && r == N.Select(env, N.Forget(View()))
    {
      var fdistance := succ.fdistance;
      succ := succ.(fdistance := INFINITE.delay);
      r := GetSuccessor(env);
      succ := succ.(fdistance := fdistance);
    }

    /** `alive` is false when the prefix has no successor left and is to be deleted. */
    method LastReply(env: Env) returns (alive: bool, fx: seq<Effect>)
      modifies this
      ensures Outcome(if alive then Some(View()) else None, fx) == N.LastReply(env, old(View()))
    {
      hide N.LastReplyStep;
      fx := LastReplyStep(env);
      alive := true;
      if state == Passive && succ.nbr.None? {
        alive := false;
        ghost var s := Step(View(), fx);
        while rijk != []
          invariant View() == s.node.(rijk := rijk) && |rijk| <= |s.node.rijk|
          invariant rijk == s.node.rijk[|s.node.rijk| - |rijk|..]
          invariant fx == s.fx + N.Settles(s.node.rijk[..|s.node.rijk| - |rijk|])
          decreases |rijk|
        {
          fx := fx + [Effect.Settle(rijk[0])];
          rijk := rijk[1..];
        }
        assert s.node.rijk[..|s.node.rijk|] == s.node.rijk;
        var d := UninstallAll();
        fx := fx + d;
      }
    }

    method CloseIfQuiet(env: Env, sent: seq<Effect>) returns (alive: bool, fx: seq<Effect>)
      modifies this
      ensures Outcome(if alive then Some(View()) else None, fx) == N.CloseIfQuiet(env, Step(old(View()), sent))
    {
      hide N.LastReply;
      alive, fx := true, sent;
      if state != Passive && rijk == [] {
        var more;
        alive, more := LastReply(env);
        fx := sent + more;
      }
    }

    // -------------------------------------------------------------- the inputs

    method Decide(env: Env, e: DualEvent, oldFd: uint32, replyTo: Option<NbrId>) returns (fx: seq<Effect>)
      modifies this
      ensures Step(View(), fx) == N.Decide(env, old(View()), e, oldFd, replyTo)
    {
      hide N.GoActive, N.UpdateFib, N.Select;
      var r := GetSuccessor(env);
      if r.None? {
        fx := GoActive(env, e);
      } else {
        SetSuccessor(r);
        var a := Advertise();
        UpdateFibKeepsSuccessor(env, View());
        fx := UpdateFib(env);
        if replyTo.Some? { fx := fx + [SendReply(replyTo.value, N.Capped(env, a), false)]; }
        if succ.fdistance != oldFd {
          var u := UpdateAll(env, a);
          fx := fx + u;
        }
      }
    }

    method CheckUpdate(env: Env, n: NbrId, info: Option<Info>) returns (alive: bool, fx: seq<Effect>)
      modifies this
      ensures Outcome(if alive then Some(View()) else None, fx) == N.UpdateKnown(env, old(View()), n, info)
    {
      hide N.Decide, N.CloseIfQuiet, N.Absorb;
      var oldFd := succ.fdistance;
      fx := Absorb(n, info);
      if state == Passive {
        var d := Decide(env, Evt4, oldFd, None);
        fx := fx + d;
      } else {
        assert fx + [] == fx;
      }
      alive, fx := CloseIfQuiet(env, fx);
    }

    method ServeQuery(env: Env, n: NbrId, oldFd: uint32) returns (answered: bool, fx: seq<Effect>)
      modifies this
      ensures Step(View(), fx) == N.ServeQuery(env, old(View()), n, oldFd)
      ensures answered == N.AnsweredAtOnce(env, old(View()), n)
    {
      hide N.Decide, N.Fsm, N.Select;
      fx := [];
      if state == Passive {
        var r := GetSuccessor(env);
        answered := r.Some?;
        fx := Decide(env, Evt3, oldFd, Some(n));
      } else if succ.nbr == Some(n) {
        answered := false;
        if state == Active0 || state == Active1 { fx := Fsm(env, Evt5); }
      } else {
        answered := true;
        fx := Fsm(env, Evt6);
        fx := fx + [SendReply(n, N.Capped(env, N.MarkActive(Advertise())), false)];
      }
    }

    method CheckQuery(env: Env, n: NbrId, asked: Advert, info: Option<Info>, sia: bool) returns (alive: bool, fx: seq<Effect>)
      modifies this
      ensures Outcome(if alive then Some(View()) else None, fx) == N.CheckQuery(env, Some(old(View())), n, asked, info, sia)
    {
      hide N.ServeQuery, N.CloseIfQuiet, N.Absorb, N.AnsweredAtOnce;
      var oldFd := succ.fdistance;
      fx := Absorb(n, info);
      var answered, q := ServeQuery(env, n, oldFd);
      alive, fx := CloseIfQuiet(env, fx + q);
      if sia && !answered {
        if alive {
          fx := fx + [SendReply(n, N.Capped(env, N.MarkActive(Advertise())), true)];
        } else {
          fx := fx + [UseDeleted];
        }
      }
    }

    method FindReply(n: NbrId) returns (found: bool)
      ensures found == (n in rijk)
    {
      for i := 0 to |rijk|
        invariant n !in rijk[..i]
      {
        if rijk[i] == n { return true; }
      }
      return false;
    }

    method RemoveReply(n: NbrId)
      modifies this
      ensures View() == old(View()).(rijk := RemoveFirst(old(rijk), n))
    {
      var i := 0;
      while i < |rijk| && rijk[i] != n
        invariant i <= |rijk| && n !in rijk[..i]
      {
        i := i + 1;
      }
      RemoveFirstAt(rijk, n, i);
      if i < |rijk| { rijk := rijk[..i] + rijk[i + 1..]; }
    }

    method CheckReply(env: Env, n: NbrId, info: Option<Info>, sia: bool) returns (alive: bool, fx: seq<Effect>)
      modifies this
      ensures Outcome(if alive then Some(View()) else None, fx) == N.CheckReply(env, Some(old(View())), n, info, sia)
    {
      hide N.LastReply, N.Absorb;
      alive, fx := true, [];
      if state == Passive { return; }
      var owes := FindReply(n);
      if !owes || sia { return; }
      fx := Absorb(n, info);
      AbsorbKeepsReplies(old(View()), n, info);
      RemoveReply(n);
      fx := fx + [Effect.Settle(n)];
      if rijk == [] {
        var more;
        alive, more := LastReply(env);
        fx := fx + more;
      }
    }

    method LinkDown(env: Env, n: NbrId) returns (alive: bool, fx: seq<Effect>)
      modifies this
      ensures Outcome(if alive then Some(View()) else None, fx) == N.LinkDown(env, old(View()), n)
    {
      hide N.LoseLink, N.CheckReply, N.DropRoute;
      alive, fx := true, [];
      var i := FindRoute(n);
      if i == |routes| { return; }
      var oldFd := succ.fdistance;
      fx := DeleteRoute(n);
      var d := LoseLink(env, n, oldFd);
      var more;
      alive, more := CheckReply(env, n, None, false);
      fx := fx + d + more;
      if !alive {
        fx := fx + [UseDeleted];
      } else if succ.nbr == Some(n) {
        succ := succ.(nbr := None);
      }
    }

    method LoseLink(env: Env, n: NbrId, oldFd: uint32) returns (fx: seq<Effect>)
      modifies this
      ensures Step(View(), fx) == N.LoseLink(env, old(View()), n, oldFd)
    {
      hide N.Decide, N.Fsm;
      fx := [];
      match state
      case Passive => fx := Decide(env, Evt4, oldFd, None);
      case Active1 => if succ.nbr == Some(n) { fx := Fsm(env, Evt9); }
      case Active3 => if succ.nbr == Some(n) { fx := Fsm(env, Evt10); }
      case _ =>
    }
  }

  lemma UpdateFibKeepsSuccessor(env: Env, node: Node)
    ensures N.UpdateFib(env, node).node.succ == node.succ
  {
  }

  lemma AbsorbKeepsReplies(node: Node, n: NbrId, info: Option<Info>)
    ensures var a := N.Absorb(node, n, info).node; a.rijk == node.rijk && a.state == node.state && a.succ == node.succ
  {
  }

  lemma {:induction false} RemoveFirstAt<T>(s: seq<T>, x: T, i: nat)
    requires i <= |s| && x !in s[..i] && (i < |s| ==> s[i] == x)
    ensures RemoveFirst(s, x) == if i < |s| then s[..i] + s[i + 1..] else s
  {
    if i > 0 {
      assert s[0] in s[..i];
      assert x !in s[1..][..i - 1] by { assert forall y :: y in s[1..][..i - 1] ==> y in s[..i]; }
      RemoveFirstAt(s[1..], x, i - 1);
    }
  }

  /** The first attached route stays the first one found. */
  lemma {:induction false} FirstIsFirst(env: Env, routes: seq<Route>, i: nat, k: nat)
    requires i < k <= |routes| && N.FirstAttached(env, routes, i) == None && N.Attached(env, routes[i])
    ensures N.FirstAttached(env, routes, k) == Some(i)
  {
    if k > i + 1 { FirstIsFirst(env, routes, i, k - 1); }
  }
}
