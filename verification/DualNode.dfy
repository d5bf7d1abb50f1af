/** DUAL on one prefix: what every input does to the prefix, as functions from
    the old prefix to the new one and the effects on the way. */
module DualNode {
  import opened Prelude
  import opened EigrpMetric
  import opened DualTypes

  // ---------------------------------------------------------------- the route list

  /** Position of the route advertised by `n`, or the length of the list. */
  function RouteIndex(routes: seq<Route>, n: NbrId): (i: nat)
    ensures i <= |routes|
    ensures i < |routes| ==> routes[i].nbr == n
    ensures forall j :: 0 <= j < i ==> routes[j].nbr != n
  {
    if routes == [] then 0
    else if routes[0].nbr == n then 0
    else RouteIndex(routes[1..], n) + 1
  }

  predicate HasRoute(routes: seq<Route>, n: NbrId) {
    RouteIndex(routes, n) < |routes|
  }

  /** Where a new route with this nexthop goes: before the first larger nexthop. */
  function InsertIndex(routes: seq<Route>, nexthop: uint32): (i: nat)
    ensures i <= |routes|
    ensures i < |routes| ==> routes[i].nexthop > nexthop
    ensures forall j :: 0 <= j < i ==> routes[j].nexthop <= nexthop
  {
    if routes == [] then 0
    else if routes[0].nexthop > nexthop then 0
    else InsertIndex(routes[1..], nexthop) + 1
  }

  function InsertRoute(routes: seq<Route>, r: Route): seq<Route> {
    var j := InsertIndex(routes, r.nexthop);
    routes[..j] + [r] + routes[j..]
  }

  function NewRoute(n: NbrId, info: Info): Route {
    Route(n, info.rtype, info.nexthop, info.metric, info.emetric, info.distance, info.rdistance, false, true)
  }

  /** A known route keeps its type and nexthop; only the metrics are refreshed. */
  function Refresh(r: Route, info: Info): Route {
    r.(metric := info.metric, emetric := info.emetric,
       distance := info.distance, rdistance := info.rdistance, changed := true)
  }

  function DropRoute(node: Node, n: NbrId): Step {
    var i := RouteIndex(node.routes, n);
    if i == |node.routes| then Step(node, [])
    else Step(node.(routes := node.routes[..i] + node.routes[i + 1..]),
              if node.routes[i].installed then [KernelDelete(PathOf(node.routes[i]))] else [])
  }

  /** The route from `n` becomes what `n` says now. */
  function Absorb(node: Node, n: NbrId, info: Option<Info>): Step {
    if info.None? then DropRoute(node, n)
    else
      var i := RouteIndex(node.routes, n);
      if i < |node.routes| then
        Step(node.(routes := node.routes[i := Refresh(node.routes[i], info.value)]), [])
      else
        Step(node.(routes := InsertRoute(node.routes, NewRoute(n, info.value))), [])
  }

  // ---------------------------------------------------------------- choosing a successor

  predicate Attached(env: Env, r: Route) {
    r.rtype == Internal && IsLocal(env, r.nbr)
  }

  /** First internal route of an attached network among the first `k`. */
  function FirstAttached(env: Env, routes: seq<Route>, k: nat): (i: Option<nat>)
    requires k <= |routes|
    ensures i.Some? ==> i.value < k && Attached(env, routes[i.value])
    ensures i.Some? ==> forall j :: 0 <= j < i.value ==> !Attached(env, routes[j])
    ensures i.None? ==> forall j :: 0 <= j < k ==> !Attached(env, routes[j])
  {
    if k == 0 then None
    else
      var b := FirstAttached(env, routes, k - 1);
      if b.Some? then b
      else if Attached(env, routes[k - 1]) then Some(k - 1)
      else None
  }

  predicate ExternalOnly(routes: seq<Route>) {
    forall i :: 0 <= i < |routes| ==> routes[i].rtype == External
  }

  /** Worth considering: of the preferred type and meeting the feasibility condition. */
  predicate Candidate(routes: seq<Route>, fd: uint32, r: Route) {
    (r.rtype == External ==> ExternalOnly(routes)) && r.rdistance < fd && r.distance < INFINITE_METRIC
  }

  /** The nearest candidate among the first `k`, the earliest one on a tie. */
  function Nearest(routes: seq<Route>, fd: uint32, k: nat): (i: Option<nat>)
    requires k <= |routes|
    ensures i.Some? ==> i.value < k && Candidate(routes, fd, routes[i.value])
    ensures i.Some? ==> forall j :: 0 <= j < k && Candidate(routes, fd, routes[j]) ==>
              routes[i.value].distance <= routes[j].distance
    ensures i.Some? ==> forall j :: 0 <= j < i.value && Candidate(routes, fd, routes[j]) ==>
              routes[i.value].distance < routes[j].distance
    ensures i.None? ==> forall j :: 0 <= j < k ==> !Candidate(routes, fd, routes[j])
  {
    if k == 0 then None
    else
      var b := Nearest(routes, fd, k - 1);
      if Candidate(routes, fd, routes[k - 1]) && (b.None? || routes[k - 1].distance < routes[b.value].distance)
      then Some(k - 1)
      else b
  }

  function SelectIndex(env: Env, routes: seq<Route>, fd: uint32): (i: Option<nat>)
    ensures i.Some? ==> i.value < |routes|
  {
    var a := FirstAttached(env, routes, |routes|);
    if a.Some? then a else Nearest(routes, fd, |routes|)
  }

  function Select(env: Env, node: Node): Option<Route> {
    var i := SelectIndex(env, node.routes, node.succ.fdistance);
    if i.Some? then Some(node.routes[i.value]) else None
  }

  function SetSuccessor(node: Node, r: Option<Route>): Node {
    if r.None? then node.(succ := NO_SUCCESSOR)
    else
      var s := r.value;
      node.(succ := Successor(Some(s.nbr), s.rtype, s.distance, s.rdistance, s.metric, s.emetric))
  }

  // ---------------------------------------------------------------- the forwarding table

  /** What a route must beat to be installed. */
  datatype Bar = Bar(fdistance: uint32, limit: uint32)

  /** The variance test multiplies in 32-bit arithmetic. */
  function FibBar(env: Env, fd: uint32): Bar {
    Bar(fd, fd * env.variance % 0x1_0000_0000)
  }

  predicate Eligible(env: Env, bar: Bar, r: Route) {
    && !IsRedist(env, r.nbr)
    && r.rdistance < bar.fdistance
    && r.distance <= bar.limit
  }

  function EligibleBefore(env: Env, bar: Bar, routes: seq<Route>, k: nat): (c: nat)
    requires k <= |routes|
    ensures c <= k
  {
    if k == 0 then 0
    else EligibleBefore(env, bar, routes, k - 1) + if Eligible(env, bar, routes[k - 1]) then 1 else 0
  }

  /** Among the first `maxPaths` eligible routes. */
  predicate Chosen(env: Env, bar: Bar, routes: seq<Route>, i: nat)
    requires i < |routes|
  {
    Eligible(env, bar, routes[i]) && EligibleBefore(env, bar, routes, i) < env.maxPaths
  }

  function FibRoute(env: Env, bar: Bar, routes: seq<Route>, i: nat): Route
    requires i < |routes|
  {
    if IsRedist(env, routes[i].nbr) then routes[i]
    else routes[i].(installed := Chosen(env, bar, routes, i))
  }

  function FibRoutes(env: Env, bar: Bar, routes: seq<Route>): seq<Route> {
    seq(|routes|, i requires 0 <= i < |routes| => FibRoute(env, bar, routes, i))
  }

  function FibMessage(env: Env, bar: Bar, routes: seq<Route>, i: nat): seq<Effect>
    requires i < |routes|
  {
    var r := routes[i];
    if IsRedist(env, r.nbr) then []
    else if Chosen(env, bar, routes, i) then
      if r.installed && !r.changed then [] else [KernelChange(PathOf(r))]
    else if r.installed then [KernelDelete(PathOf(r))]
    else []
  }

  function FibMessages(env: Env, bar: Bar, routes: seq<Route>, k: nat): seq<Effect>
    requires k <= |routes|
  {
    if k == 0 then [] else FibMessages(env, bar, routes, k - 1) + FibMessage(env, bar, routes, k - 1)
  }

  function Uninstalled(routes: seq<Route>): seq<Route> {
    seq(|routes|, i requires 0 <= i < |routes| => routes[i].(installed := false))
  }

  /** One deletion per installed route among the first `k`. */
  function KernelDeletes(routes: seq<Route>, k: nat): seq<Effect>
    requires k <= |routes|
  {
    if k == 0 then []
    else KernelDeletes(routes, k - 1) + if routes[k - 1].installed then [KernelDelete(PathOf(routes[k - 1]))] else []
  }

  predicate AttachedSuccessor(env: Env, node: Node) {
    node.succ.nbr.Some? && IsLocal(env, node.succ.nbr.value)
  }

  function UpdateFib(env: Env, node: Node): Step {
    if node.state != Passive then
      Step(node.(routes := Uninstalled(node.routes)), KernelDeletes(node.routes, |node.routes|))
    else if AttachedSuccessor(env, node) then Step(node, [])
    else
      var bar := FibBar(env, node.succ.fdistance);
      Step(node.(routes := FibRoutes(env, bar, node.routes)), FibMessages(env, bar, node.routes, |node.routes|))
  }

  // ---------------------------------------------------------------- the state machine

  /** The state table.  None: the event is not expected in this state. */
  function NextState(s: DualState, e: DualEvent): Option<DualState> {
    match e
    case Evt3 => if s == Passive then Some(Active3) else None
    case Evt4 => if s == Passive then Some(Active1) else None
    case Evt5 => if s == Active0 || s == Active1 then Some(Active2) else None
    case Evt6 => if s != Passive then Some(s) else None
    case Evt9 => if s == Active1 then Some(Active0) else None
    case Evt10 => if s == Active3 then Some(Active2) else None
    case Evt11 => if s == Active0 then Some(Active1) else None
    case Evt12 => if s == Active2 then Some(Active3) else None
    case Evt13 => if s == Active3 then Some(Passive) else None
    case Evt14 => if s == Active0 then Some(Passive) else None
    case Evt15 => if s == Active1 then Some(Passive) else None
    case Evt16 => if s == Active2 then Some(Passive) else None
  }

  function Fsm(env: Env, node: Node, e: DualEvent): Step {
    var t := NextState(node.state, e);
    if t.None? then Step(node, [])
    else
      var node' := node.(state := t.value);
      if node.state != t.value && (node.state == Passive || t.value == Passive)
      then UpdateFib(env, node')
      else Step(node', [])
  }

  // ---------------------------------------------------------------- packets

  /** Split horizon: the interface the successor is reached over stays silent. */
  predicate Blocked(env: Env, succ: Option<NbrId>, iface: Option<Iface>) {
    succ.Some? && iface.Some? && IfaceOf(env, succ.value) == iface && iface.value.splitHorizon
  }

  function SuccessorAdvert(node: Node): Advert {
    if node.succ.nbr.None? then Advert(Internal, 0, INFINITE, NO_EMETRIC)
    else Advert(node.succ.rtype, 0, node.succ.metric,
                if node.succ.rtype == External then node.succ.emetric else NO_EMETRIC)
  }

  /** The ACTIVE bit of the metric flags. */
  function MarkActive(a: Advert): Advert {
    if a.metric.flags / 4 % 2 == 1 then a
    else a.(metric := a.metric.(flags := a.metric.flags / 8 * 8 + 4 + a.metric.flags % 4))
  }

  /** Too many hops make an advertisement unreachable. */
  function Capped(env: Env, a: Advert): Advert {
    if a.metric.hopCount >= env.maxHops then a.(metric := a.metric.(delay := INFINITE_METRIC)) else a
  }

  function Updates(env: Env, succ: Option<NbrId>, a: Advert, k: nat): seq<Effect>
    requires k <= |env.ifaces|
  {
    if k == 0 then []
    else Updates(env, succ, a, k - 1)
         + if Blocked(env, succ, Some(env.ifaces[k - 1])) then [] else [SendUpdate(env.ifaces[k - 1].id, Capped(env, a))]
  }

  function Queries(env: Env, succ: Option<NbrId>, a: Advert, k: nat): seq<Effect>
    requires k <= |env.ifaces|
  {
    if k == 0 then []
    else Queries(env, succ, a, k - 1)
         + if Blocked(env, succ, Some(env.ifaces[k - 1])) then [] else [SendQuery(env.ifaces[k - 1].id, a)]
  }

  predicate Queried(env: Env, succ: Option<NbrId>, n: NbrId) {
    n in env.nbrs && !env.nbrs[n].self && !Blocked(env, succ, env.nbrs[n].iface)
  }

  /** The neighbours that must answer, in tree order. */
  function Targets(env: Env, succ: Option<NbrId>, k: nat): (t: seq<NbrId>)
    requires k <= |env.order|
  {
    if k == 0 then []
    else Targets(env, succ, k - 1) + if Queried(env, succ, env.order[k - 1]) then [env.order[k - 1]] else []
  }

  function Owes(t: seq<NbrId>): seq<Effect> {
    seq(|t|, i requires 0 <= i < |t| => Owe(t[i]))
  }

  function QueryAll(env: Env, node: Node): Step {
    var t := Targets(env, node.succ.nbr, |env.order|);
    Step(node.(rijk := node.rijk + t),
         Queries(env, node.succ.nbr, MarkActive(SuccessorAdvert(node)), |env.ifaces|) + Owes(t))
  }

  function UpdateAll(env: Env, node: Node, a: Advert): seq<Effect> {
    Updates(env, node.succ.nbr, a, |env.ifaces|)
  }

  /** Query everybody, then take the event that says why. */
  function GoActive(env: Env, node: Node, e: DualEvent): Step {
    var q := QueryAll(env, node);
    var f := Fsm(env, q.node, e);
    Step(f.node, q.fx + f.fx)
  }

  // ---------------------------------------------------------------- the last reply

  /** The feasible distance is forgotten before the choice when the computation
      was started by the router itself or by its successor. */
  function Forget(node: Node): Node {
    node.(succ := node.succ.(fdistance := INFINITE_METRIC))
  }

  function Settled(env: Env, node: Node, r: Option<Route>, e: DualEvent): Step {
    var n := SetSuccessor(node, r);
    var f := Fsm(env, n, e);
    Step(f.node, UpdateAll(env, n, SuccessorAdvert(n)) + f.fx)
  }

  /** As Settled, and the old successor, whose query started this, gets its reply. */
  function SettledWithReply(env: Env, node: Node, r: Option<Route>, e: DualEvent): Step {
    var n := SetSuccessor(node, r);
    var a := MarkActive(SuccessorAdvert(n));
    var f := Fsm(env, n, e);
    Step(f.node, (if node.succ.nbr.Some? then [SendReply(node.succ.nbr.value, Capped(env, a), false)] else [])
                 + UpdateAll(env, n, a) + f.fx)
  }

  function LastReplyStep(env: Env, node: Node): Step {
    match node.state
    case Passive => Step(node, [])
    case Active0 =>
      var r := Select(env, node);
      if r.None? then GoActive(env, node, Evt11) else Settled(env, node, r, Evt14)
    case Active1 => Settled(env, node, Select(env, Forget(node)), Evt15)
    case Active2 =>
      var r := Select(env, node);
      if r.None? then GoActive(env, node, Evt12) else SettledWithReply(env, node, r, Evt16)
    case Active3 => SettledWithReply(env, node, Select(env, Forget(node)), Evt13)
  }

  function Settles(t: seq<NbrId>): seq<Effect> {
    seq(|t|, i requires 0 <= i < |t| => Settle(t[i]))
  }

  /** A passive prefix without successor is deleted with everything it holds. */
  function Reap(s: Step): Outcome {
    if s.node.state == Passive && s.node.succ.nbr.None?
    then Outcome(None, s.fx + Settles(s.node.rijk) + KernelDeletes(s.node.routes, |s.node.routes|))
    else Outcome(Some(s.node), s.fx)
  }

  function LastReply(env: Env, node: Node): Outcome {
    Reap(LastReplyStep(env, node))
  }

  function After(fx: seq<Effect>, o: Outcome): Outcome {
    Outcome(o.node, fx + o.fx)
  }

  /** An active prefix that nobody owes a reply is finished at once. */
  function CloseIfQuiet(env: Env, s: Step): Outcome {
    if s.node.state != Passive && s.node.rijk == [] then After(s.fx, LastReply(env, s.node))
    else Outcome(Some(s.node), s.fx)
  }

  // ---------------------------------------------------------------- the inputs

  /** A passive prefix re-selects its successor, or goes active when nothing is
      feasible.  `replyTo` is the neighbour whose query is being served. */
  function Decide(env: Env, node: Node, e: DualEvent, oldFd: uint32, replyTo: Option<NbrId>): Step {
    var r := Select(env, node);
    if r.None? then GoActive(env, node, e)
    else
      var n := SetSuccessor(node, r);
      var f := UpdateFib(env, n);
      var a := SuccessorAdvert(n);
      Step(f.node, f.fx
                   + (if replyTo.Some? then [SendReply(replyTo.value, Capped(env, a), false)] else [])
                   + (if n.succ.fdistance != oldFd then UpdateAll(env, n, a) else []))
  }

  function UpdateKnown(env: Env, node: Node, n: NbrId, info: Option<Info>): Outcome {
    var a := Absorb(node, n, info);
    var d := if a.node.state == Passive then Decide(env, a.node, Evt4, node.succ.fdistance, None) else Step(a.node, []);
    CloseIfQuiet(env, Step(d.node, a.fx + d.fx))
  }

  /** An unknown prefix that is reachable is created first. */
  function CheckUpdate(env: Env, prev: Option<Node>, n: NbrId, info: Option<Info>): Outcome {
    if prev.None? && info.None? then Outcome(None, [])
    else UpdateKnown(env, if prev.None? then NEW_NODE else prev.value, n, info)
  }

  /** Whether the query is answered on the spot, and what that does. */
  function ServeQuery(env: Env, node: Node, n: NbrId, oldFd: uint32): Step {
    var ofSuccessor := node.succ.nbr == Some(n);
    match node.state
    case Passive => Decide(env, node, Evt3, oldFd, Some(n))
    case Active0 => if ofSuccessor then Fsm(env, node, Evt5) else AnswerActive(env, node, n)
    case Active1 => if ofSuccessor then Fsm(env, node, Evt5) else AnswerActive(env, node, n)
    case Active2 => if ofSuccessor then Step(node, []) else AnswerActive(env, node, n)
    case Active3 => if ofSuccessor then Step(node, []) else AnswerActive(env, node, n)
  }

  function AnswerActive(env: Env, node: Node, n: NbrId): Step {
    var f := Fsm(env, node, Evt6);
    Step(f.node, f.fx + [SendReply(n, Capped(env, MarkActive(SuccessorAdvert(f.node))), false)])
  }

  predicate AnsweredAtOnce(env: Env, node: Node, n: NbrId) {
    if node.state == Passive then Select(env, node).Some? else node.succ.nbr != Some(n)
  }

  function CheckQuery(env: Env, prev: Option<Node>, n: NbrId, asked: Advert, info: Option<Info>, sia: bool): Outcome {
    if prev.None? then
      var fx := [SendReply(n, Capped(env, asked.(metric := asked.metric.(delay := INFINITE_METRIC))), false)];
      if info.None? then Outcome(None, fx)
      else
        var a := Absorb(NEW_NODE, n, info);
        Outcome(Some(SetSuccessor(a.node, Some(NewRoute(n, info.value)))), fx)
    else
      var a := Absorb(prev.value, n, info);
      var q := ServeQuery(env, a.node, n, prev.value.succ.fdistance);
      var o := CloseIfQuiet(env, Step(q.node, a.fx + q.fx));
      if !sia || AnsweredAtOnce(env, a.node, n) then o
      else Outcome(o.node, o.fx + [if o.node.None? then UseDeleted
                                   else SendReply(n, Capped(env, MarkActive(SuccessorAdvert(o.node.value))), true)])
  }

  /** A reply counts only while the prefix is active and the neighbour owes one. */
  predicate Awaited(prev: Option<Node>, n: NbrId) {
    prev.Some? && prev.value.state != Passive && n in prev.value.rijk
  }

  function CheckReply(env: Env, prev: Option<Node>, n: NbrId, info: Option<Info>, sia: bool): Outcome {
    if !Awaited(prev, n) || sia then Outcome(prev, [])
    else
      var a := Absorb(prev.value, n, info);
      var rest := a.node.(rijk := RemoveFirst(a.node.rijk, n));
      var fx := a.fx + [Settle(n)];
      if rest.rijk == [] then After(fx, LastReply(env, rest)) else Outcome(Some(rest), fx)
  }

  /** The withdrawn route may have been the successor's. */
  function LoseLink(env: Env, node: Node, n: NbrId, oldFd: uint32): Step {
    match node.state
    case Passive => Decide(env, node, Evt4, oldFd, None)
    case Active1 => if node.succ.nbr == Some(n) then Fsm(env, node, Evt9) else Step(node, [])
    case Active3 => if node.succ.nbr == Some(n) then Fsm(env, node, Evt10) else Step(node, [])
    case Active0 => Step(node, [])
    case Active2 => Step(node, [])
  }

  /** The link to `n` went down: its route is withdrawn and a reply it owes
      counts as received with infinite metric. */
  function LinkDownRoute(env: Env, node: Node, n: NbrId): Outcome {
    var a := DropRoute(node, n);
    var d := LoseLink(env, a.node, n, node.succ.fdistance);
    After(a.fx + d.fx, CheckReply(env, Some(d.node), n, None, false))
  }

  function LinkDown(env: Env, node: Node, n: NbrId): Outcome {
    if !HasRoute(node.routes, n) then Outcome(Some(node), [])
    else
      var o := LinkDownRoute(env, node, n);
      if o.node.None? then Outcome(None, o.fx + [UseDeleted])
      else if o.node.value.succ.nbr == Some(n)
      then Outcome(Some(o.node.value.(succ := o.node.value.succ.(nbr := None))), o.fx)
      else o
  }
}
