/** The vocabulary of the route decision engine: neighbours, routes, prefixes
    and the effects one step has outside the prefix it works on. */
module DualTypes {
  import opened Prelude
  import opened EigrpMetric

  type NbrId = nat

  datatype Iface = Iface(id: nat, splitHorizon: bool, link: Link)

  /** `self` marks the router's own pseudo-neighbours: `local` ones inject
      attached networks, `redist` ones inject redistributed routes. */
  datatype RawNbr = Nbr(self: bool, local: bool, redist: bool, addr: uint32, iface: Option<Iface>)

  /** Only the router's own neighbours can do without an interface. */
  predicate NbrOk(n: RawNbr) {
    && (!n.self ==> n.iface.Some?)
    && (n.iface.Some? ==> LinkOk(n.iface.value.link))
  }

  type Nbr = n: RawNbr | NbrOk(n) witness Nbr(true, false, false, 0, None)

  /** The instance's configuration and neighbour table.  `order` is the order
      in which the neighbour tree is walked. */
  datatype Env = Env(k: KValues, maxPaths: uint8, variance: uint8, maxHops: uint8,
                     ifaces: seq<Iface>, nbrs: map<NbrId, Nbr>, order: seq<NbrId>)

  datatype RouteType = Internal | External

  datatype Emetric = Emetric(routerId: uint32, asn: uint32, tag: uint32, metric: uint32,
                             reserved: uint16, protocol: uint8, flags: uint8)

  const NO_EMETRIC := Emetric(0, 0, 0, 0, 0, 0, 0)

  /** A route as it is advertised, without its prefix. */
  datatype Advert = Advert(rtype: RouteType, nexthop: uint32, metric: Metric, emetric: Emetric)

  /** A finite advertisement as the engine evaluates it. */
  datatype Info = Info(rtype: RouteType, nexthop: uint32, metric: Metric, emetric: Emetric,
                       distance: uint32, rdistance: uint32)

  datatype Route = Route(nbr: NbrId, rtype: RouteType, nexthop: uint32, metric: Metric, emetric: Emetric,
                         distance: uint32, rdistance: uint32, installed: bool, changed: bool)

  datatype DualState = Passive | Active0 | Active1 | Active2 | Active3

  /** The events that can change a state; the others are recorded in the source only. */
  datatype DualEvent = Evt3 | Evt4 | Evt5 | Evt6 | Evt9 | Evt10 | Evt11 | Evt12 | Evt13 | Evt14 | Evt15 | Evt16

  datatype Successor = Successor(nbr: Option<NbrId>, rtype: RouteType, fdistance: uint32, rdistance: uint32,
                                 metric: Metric, emetric: Emetric)

  /** One prefix: its routes in nexthop order, the neighbours that owe a reply, and the successor. */
  datatype Node = Node(state: DualState, routes: seq<Route>, rijk: seq<NbrId>, succ: Successor)

  /** What the kernel is told about a route, fixed when the route is created. */
  datatype Path = Path(nbr: NbrId, rtype: RouteType, nexthop: uint32)

  function PathOf(r: Route): Path {
    Path(r.nbr, r.rtype, r.nexthop)
  }

  /** What a step does outside its prefix: kernel messages, the neighbour side
      of the reply bookkeeping, and packets handed to the protocol engine. A
      handler that goes on with the prefix after deleting it marks `UseDeleted`. */
  datatype Effect =
    | KernelChange(path: Path)
    | KernelDelete(path: Path)
    | Owe(nbr: NbrId)
    | Settle(nbr: NbrId)
    | SendUpdate(iface: nat, advert: Advert)
    | SendQuery(iface: nat, advert: Advert)
    | SendReply(to: NbrId, advert: Advert, sia: bool)
    | UseDeleted

  datatype Step = Step(node: Node, fx: seq<Effect>)

  /** `node` is None once the prefix has been deleted. */
  datatype Outcome = Outcome(node: Option<Node>, fx: seq<Effect>)

  const ZERO_METRIC := Metric(0, 0, 0, 0, 0, 0, 0, 0)
  const INFINITE := ZERO_METRIC.(delay := INFINITE_METRIC)
  const NO_SUCCESSOR := Successor(None, Internal, INFINITE_METRIC, INFINITE_METRIC, INFINITE, NO_EMETRIC)
  const NEW_NODE := Node(Passive, [], [], NO_SUCCESSOR)

  predicate IsLocal(env: Env, n: NbrId) {
    n in env.nbrs && env.nbrs[n].local
  }

  predicate IsRedist(env: Env, n: NbrId) {
    n in env.nbrs && env.nbrs[n].redist
  }

  function IfaceOf(env: Env, n: NbrId): Option<Iface> {
    if n in env.nbrs then env.nbrs[n].iface else None
  }

  /** Neighbours in the tree are known and listed once. */
  predicate EnvOk(env: Env) {
    Distinct(env.order) && forall n :: n in env.order ==> n in env.nbrs
  }

  /** A finite advertisement carries a bandwidth the receiver can divide by. */
  predicate AdvertOk(a: Advert) {
    a.metric.delay != INFINITE_METRIC ==> WireBandwidth(a.metric.bandwidth)
  }

  /** The engine evaluates an advertisement from `n`; an infinite delay means unreachable. */
  function Interpret(env: Env, n: NbrId, a: Advert): Option<Info>
    requires n in env.nbrs && AdvertOk(a)
  {
    if a.metric.delay == INFINITE_METRIC then None
    else
      var nbr := env.nbrs[n];
      var m := if nbr.self then Local(env.k, a.metric) else Received(env.k, a.metric, nbr.iface.value.link);
      Some(Info(a.rtype, if a.nexthop != 0 then a.nexthop else nbr.addr, m.metric, a.emetric, m.distance, m.rdistance))
  }
}
