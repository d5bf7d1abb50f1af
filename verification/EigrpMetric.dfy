/** Classic EIGRP metrics: the saturating arithmetic of the route decision
    engine and what one hop, and then a whole path, does to them. */
module EigrpMetric {
  import opened Prelude
  import opened Arithmetic

  const INFINITE_METRIC: uint32 := 0xFFFF_FFFF
  const SCALING_FACTOR := 256
  const REFERENCE_BANDWIDTH := 10_000_000
  const MAX_DELAY := 0xFF_FFFF
  const DEFAULT_LOAD: uint8 := 1

  /** The K coefficients.  The K5 term is floating point and is not part of the model. */
  datatype KValues = KValues(k1: uint8, k2: uint8, k3: uint8)

  datatype Metric = Metric(delay: uint32, bandwidth: uint32, mtu: nat, hopCount: uint8,
                           reliability: uint8, load: uint8, tag: uint8, flags: uint8)

  /** The interface a route arrives on. */
  datatype Link = Link(delay: uint32, bandwidth: uint32, mtu: nat)

  /** A bandwidth that can be carried on the wire without dividing by zero at the receiver. */
  predicate WireBandwidth(b: int) {
    1 <= b <= SCALING_FACTOR * REFERENCE_BANDWIDTH
  }

  predicate LinkOk(l: Link) {
    1 <= l.bandwidth <= REFERENCE_BANDWIDTH
  }

  function SafeSum(a: uint32, b: uint32): uint32 {
    if a + b > UINT32_MAX then UINT32_MAX else a + b
  }

  function SafeMul(a: uint32, b: uint32): (r: uint32) {
    if a * b > UINT32_MAX then UINT32_MAX else (MulNonNegative(a, b); a * b)
  }

  lemma MulNonNegative(a: nat, b: nat)
    ensures a * b >= 0
  {
  }

  function CompositeDelay(delay: uint32): uint32 {
    Min(delay, MAX_DELAY) * SCALING_FACTOR
  }

  function RealDelay(delay: uint32): uint32 {
    delay / SCALING_FACTOR
  }

  function CompositeBandwidth(bandwidth: uint32): uint32
    requires 1 <= bandwidth
  {
    DivBounds(REFERENCE_BANDWIDTH, bandwidth);
    SCALING_FACTOR * (REFERENCE_BANDWIDTH / bandwidth)
  }

  function RealBandwidth(bandwidth: uint32): uint32
    requires 1 <= bandwidth
  {
    DivBounds(SCALING_FACTOR * REFERENCE_BANDWIDTH, bandwidth);
    SCALING_FACTOR * REFERENCE_BANDWIDTH / bandwidth
  }

  /** The K2 term: bandwidth weighed by the load. */
  function LoadTerm(k2: uint8, scaled: uint32, load: uint8): uint32 {
    DivBounds(SafeMul(k2 * SCALING_FACTOR, scaled), 256 - load);
    SafeMul(k2 * SCALING_FACTOR, scaled) / (256 - load)
  }

  /** The distance formula with K5 = 0. */
  function CompositeMetric(k: KValues, delay: uint32, bandwidth: uint32, load: uint8): uint32
    requires 1 <= bandwidth
  {
    DivBounds(REFERENCE_BANDWIDTH, bandwidth);
    var scaled := REFERENCE_BANDWIDTH / bandwidth;
    Min(SafeMul(k.k1 * SCALING_FACTOR, scaled) + LoadTerm(k.k2, scaled, load)
        + SafeMul(k.k3 * SCALING_FACTOR, delay), UINT32_MAX)
  }

  /** One hop: the metric a route is re-advertised with after arriving over `link`. */
  function HopMetric(m: Metric, link: Link): (r: Metric)
    requires WireBandwidth(m.bandwidth) && LinkOk(link)
  {
    RealBandwidthPositive(m.bandwidth);
    m.(delay := CompositeDelay(SafeSum(RealDelay(m.delay), link.delay)),
       bandwidth := CompositeBandwidth(Min(RealBandwidth(m.bandwidth), link.bandwidth)),
       mtu := Min(m.mtu, link.mtu),
       hopCount := if m.hopCount < 255 then m.hopCount + 1 else m.hopCount)
  }

  /** What the engine stores for a route it heard. */
  datatype Measured = Measured(metric: Metric, rdistance: uint32, distance: uint32)

  /** A metric received from a remote neighbour over `link`. */
  function Received(k: KValues, m: Metric, link: Link): Measured
    requires WireBandwidth(m.bandwidth) && LinkOk(link)
  {
    RealBandwidthPositive(m.bandwidth);
    var delay := RealDelay(m.delay);
    var bandwidth := RealBandwidth(m.bandwidth);
    Measured(HopMetric(m, link),
             CompositeMetric(k, delay, bandwidth, m.load),
             CompositeMetric(k, SafeSum(delay, link.delay), Min(bandwidth, link.bandwidth), DEFAULT_LOAD))
  }

  /** A metric injected by one of the router's own pseudo-neighbours. */
  function Local(k: KValues, m: Metric): Measured
    requires WireBandwidth(m.bandwidth)
  {
    RealBandwidthPositive(m.bandwidth);
    Measured(m, 0, CompositeMetric(k, RealDelay(m.delay), RealBandwidth(m.bandwidth), DEFAULT_LOAD))
  }

  // ---------------------------------------------------------------- division

  lemma RealBandwidthPositive(b: uint32)
    requires WireBandwidth(b)
    ensures RealBandwidth(b) >= 1
  {
    QuotientPositive(SCALING_FACTOR * REFERENCE_BANDWIDTH, b);
  }

  function Quotient(n: nat, d: nat): Option<nat> {
    if d == 0 then None else Some(n / d)
  }

  /** The two divisions made with a received bandwidth: by it, and by the result. */
  function Divided(b: uint32): Option<nat> {
    match Quotient(SCALING_FACTOR * REFERENCE_BANDWIDTH, b)
    case None => None
    case Some(decoded) => Quotient(REFERENCE_BANDWIDTH, decoded)
  }

  /** Neither division is by zero if and only if the bandwidth is a wire bandwidth;
      the smallest and the first too large one fail. */
  lemma DividedExact(b: uint32)
    ensures Divided(b).Some? <==> WireBandwidth(b)
    ensures WireBandwidth(b) ==> RealBandwidth(b) >= 1 && Divided(b) == Some(REFERENCE_BANDWIDTH / RealBandwidth(b))
    ensures Divided(0) == None && Divided(2_560_000_001) == None
  {
    if WireBandwidth(b) { RealBandwidthPositive(b); }
  }

  /** Dividing three times is dividing once. */
  lemma TripleDivision(n: nat, b: nat)
    requires 1 <= b <= n
    ensures n / b >= 1 && b <= n / (n / b)
    ensures n / (n / (n / b)) == n / b
  {
    QuotientPositive(n, b);
    DivBounds(n, b);
    var q := n / b;
    DivBounds(n, q);
    var c := n / q;
    assert b * q == q * b && c * q == q * c;
    MulCancel(b, c, q);
    DivAntitone(n, b, c);
    DivBounds(n, c);
    MulCancel(q, n / c, c);
  }

  // ---------------------------------------------------------------- one hop

  /** Scaling both operands leaves the quotient alone, so decoding an encoded bandwidth divides twice. */
  lemma RealOfComposite(b: uint32)
    requires 1 <= b <= REFERENCE_BANDWIDTH
    ensures WireBandwidth(CompositeBandwidth(b))
    ensures b <= RealBandwidth(CompositeBandwidth(b)) == REFERENCE_BANDWIDTH / (REFERENCE_BANDWIDTH / b)
  {
    var n := REFERENCE_BANDWIDTH;
    TripleDivision(n, b);
    DivBounds(n, b);
    var q := n / b;
    DivBounds(n, q);
    var c := n / q;
    var s := SCALING_FACTOR;
    assert c * (s * q) == s * (c * q);
    DivUnique(s * n, s * q, c);
  }

  /** The slower of the advertised path and the link decides the encoded bandwidth. */
  lemma HopBandwidth(b: uint32, linkBandwidth: uint32)
    requires 1 <= b <= REFERENCE_BANDWIDTH && 1 <= linkBandwidth <= REFERENCE_BANDWIDTH
    ensures WireBandwidth(CompositeBandwidth(b))
    ensures RealBandwidth(CompositeBandwidth(b)) >= 1
    ensures CompositeBandwidth(Min(RealBandwidth(CompositeBandwidth(b)), linkBandwidth))
         == CompositeBandwidth(Min(b, linkBandwidth))
  {
    var n := REFERENCE_BANDWIDTH;
    RealOfComposite(b);
    TripleDivision(n, b);
    var c := RealBandwidth(CompositeBandwidth(b));
    // b <= c have the same quotient, and so has everything between them
    if b < linkBandwidth < c {
      DivAntitone(n, b, linkBandwidth);
      DivAntitone(n, linkBandwidth, c);
    }
  }

  lemma WireAfterHop(m: Metric, link: Link)
    requires WireBandwidth(m.bandwidth) && LinkOk(link)
    ensures WireBandwidth(HopMetric(m, link).bandwidth)
  {
    RealBandwidthPositive(m.bandwidth);
    var b := Min(RealBandwidth(m.bandwidth), link.bandwidth);
    QuotientPositive(REFERENCE_BANDWIDTH, b);
    DivBounds(REFERENCE_BANDWIDTH, b);
  }

  // ---------------------------------------------------------------- a whole path

  /** The metric as it reads after crossing `path`, first link first. */
  function Along(m: Metric, path: seq<Link>): (r: Metric)
    requires WireBandwidth(m.bandwidth)
    requires forall l :: l in path ==> LinkOk(l)
    ensures WireBandwidth(r.bandwidth)
    decreases |path|
  {
    if path == [] then m
    else
      var before := Along(m, path[..|path| - 1]);
      WireAfterHop(before, path[|path| - 1]);
      HopMetric(before, path[|path| - 1])
  }

  function SlowestLink(b: uint32, path: seq<Link>): (r: uint32)
    requires 1 <= b <= REFERENCE_BANDWIDTH
    requires forall l :: l in path ==> LinkOk(l)
    ensures 1 <= r <= b
    ensures forall l :: l in path ==> r <= l.bandwidth
    ensures r == b || exists l :: l in path && r == l.bandwidth
    decreases |path|
  {
    if path == [] then b
    else
      var last := path[|path| - 1];
      var init := path[..|path| - 1];
      assert path == init + [last];
      assert last in path && LinkOk(last);
      Min(SlowestLink(b, init), last.bandwidth)
  }

  function TotalDelay(d: nat, path: seq<Link>): (r: nat)
    ensures r >= d
    decreases |path|
  {
    if path == [] then d else TotalDelay(d, path[..|path| - 1]) + path[|path| - 1].delay
  }

  lemma HopOnEncoded(m: Metric, b: uint32, d: nat, link: Link)
    requires 1 <= b <= REFERENCE_BANDWIDTH && LinkOk(link)
    requires m.bandwidth == CompositeBandwidth(b) && m.delay == SCALING_FACTOR * Min(d, MAX_DELAY)
    ensures WireBandwidth(m.bandwidth)
    ensures HopMetric(m, link).bandwidth == CompositeBandwidth(Min(b, link.bandwidth))
    ensures HopMetric(m, link).delay == SCALING_FACTOR * Min(d + link.delay, MAX_DELAY)
    ensures HopMetric(m, link).hopCount == Min(m.hopCount + 1, 255)
  {
    HopBandwidth(b, link.bandwidth);
    assert RealDelay(m.delay) == Min(d, MAX_DELAY);
  }

  /** After any number of hops the encoded bandwidth is the encoding of the
      slowest link, the encoded delay is the capped sum of all delays, never the
      infinite metric, and the hop count saturates. */
  lemma {:induction false} PathMetric(m: Metric, b: uint32, d: nat, path: seq<Link>)
    requires 1 <= b <= REFERENCE_BANDWIDTH && d <= MAX_DELAY
    requires m.bandwidth == CompositeBandwidth(b) && m.delay == CompositeDelay(d)
    requires forall l :: l in path ==> LinkOk(l)
    ensures WireBandwidth(m.bandwidth)
    ensures Along(m, path).bandwidth == CompositeBandwidth(SlowestLink(b, path))
    ensures Along(m, path).delay == SCALING_FACTOR * Min(TotalDelay(d, path), MAX_DELAY)
    ensures Along(m, path).delay != INFINITE_METRIC
    ensures Along(m, path).hopCount == Min(m.hopCount + |path|, 255)
    decreases |path|
  {
    RealOfComposite(b);
    if path != [] {
      var init, last := path[..|path| - 1], path[|path| - 1];
      PathMetric(m, b, d, init);
      HopOnEncoded(Along(m, init), SlowestLink(b, init), TotalDelay(d, init), last);
    }
  }

  // ---------------------------------------------------------------- feasibility of received routes

  lemma SafeMulMono(a: uint32, b: uint32, c: uint32)
    requires b <= c
    ensures SafeMul(a, b) <= SafeMul(a, c)
  {
    MulMono(b, c, a);
    assert b * a == a * b && c * a == a * c;
  }

  lemma SafeMulStrict(a: uint32, b: uint32, c: uint32)
    requires a > 0 && b < c && SafeMul(a, c) < UINT32_MAX
    ensures SafeMul(a, b) < SafeMul(a, c)
  {
    assert a * c == a * b + a * (c - b);
    MulMono(1, a, c - b);
    assert 1 * (c - b) == c - b;
  }

  lemma NoLoadTerm(scaled: uint32, load: uint8)
    ensures LoadTerm(0, scaled, load) == 0
  {
    assert SafeMul(0, scaled) == 0;
  }

  lemma CompositeWithoutLoad(k: KValues, delay: uint32, bandwidth: uint32, load: uint8)
    requires k.k2 == 0 && 1 <= bandwidth
    ensures 0 <= REFERENCE_BANDWIDTH / bandwidth <= REFERENCE_BANDWIDTH
    ensures CompositeMetric(k, delay, bandwidth, load)
         == Min(SafeMul(k.k1 * SCALING_FACTOR, REFERENCE_BANDWIDTH / bandwidth)
                + SafeMul(k.k3 * SCALING_FACTOR, delay), UINT32_MAX)
  {
    DivBounds(REFERENCE_BANDWIDTH, bandwidth);
    NoLoadTerm(REFERENCE_BANDWIDTH / bandwidth, load);
  }

  /** With K2 = 0, K3 > 0 and a positive interface delay, a route whose distance
      is finite was advertised from strictly closer to the destination. */
  lemma ReportedBelowDistance(k: KValues, m: Metric, link: Link)
    requires k.k2 == 0 && k.k3 > 0 && link.delay > 0
    requires WireBandwidth(m.bandwidth) && LinkOk(link)
    requires Received(k, m, link).distance < INFINITE_METRIC
    ensures Received(k, m, link).rdistance < Received(k, m, link).distance
  {
    RealBandwidthPositive(m.bandwidth);
    var delay, bandwidth := RealDelay(m.delay), RealBandwidth(m.bandwidth);
    var bandwidth' := Min(bandwidth, link.bandwidth);
    var n := REFERENCE_BANDWIDTH;
    CompositeWithoutLoad(k, delay, bandwidth, m.load);
    CompositeWithoutLoad(k, SafeSum(delay, link.delay), bandwidth', DEFAULT_LOAD);
    DivAntitone(n, bandwidth', bandwidth);
    SafeMulMono(k.k1 * SCALING_FACTOR, n / bandwidth, n / bandwidth');
    SafeMulStrict(k.k3 * SCALING_FACTOR, delay, SafeSum(delay, link.delay));
  }
}
