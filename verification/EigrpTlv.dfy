/** EIGRP type-length-value records: IPv4 routes and sequence lists, written to
    and read back from the wire. */
module EigrpTlv {
  import opened Prelude
  import opened Arithmetic
  import opened Netmask

  const HDR_LEN := 4
  const TYPE_PARAMETER := 0x0001
  const TYPE_SEQ := 0x0003
  const TYPE_SW_VERSION := 0x0004
  const TYPE_MCAST_SEQ := 0x0005
  const TYPE_INTERNAL := 0x0102
  const TYPE_EXTERNAL := 0x0103
  const INTERNAL_MIN_LEN := 25
  const EMETRIC_LEN := 20
  const METRIC_LEN := 16

  /** The metric fields as they travel; `mtu` is three bytes. */
  datatype Metric = Metric(delay: uint32, bandwidth: uint32, mtu: Bytes, hops: uint8, reliability: uint8, load: uint8,
                           tag: uint8, flags: uint8)

  datatype Emetric = Emetric(routerId: uint32, as_: uint32, tag: uint32, metric: uint32, reserved: uint16, protocol: uint8,
                             flags: uint8)

  datatype Kind = Internal | External(emetric: Emetric)

  /** Addresses in network byte order. */
  datatype Rinfo = Rinfo(kind: Kind, prefix: Bytes, prefixlen: uint8, nexthop: Bytes, metric: Metric)

  predicate Shaped(ri: Rinfo) {
    |ri.prefix| == 4 && |ri.nexthop| == 4 && |ri.metric.mtu| == 3 && ri.prefixlen <= 32
  }

  // ---------------------------------------------------------------- numbers

  /** Bytes of an address after one host-to-network swap too many. */
  function Swapped(a: Bytes, littleEndian: bool): (s: Bytes)
    requires |a| == 4
    ensures |s| == 4
  {
    if littleEndian then [a[3], a[2], a[1], a[0]] else a
  }

  // ---------------------------------------------------------------- routes out

  /** Bytes sent for a prefix: at least one, even for the default route. */
  function PrefixSize4(prefixlen: uint8): nat {
    if prefixlen == 0 then 1 else (prefixlen - 1) / 8 + 1
  }

  function LenRoute(ri: Rinfo): nat {
    HDR_LEN + 4 + PrefixSize4(ri.prefixlen) + METRIC_LEN + (if ri.kind.External? then EMETRIC_LEN else 0) + 1
  }

  function MetricBytes(m: Metric): (b: Bytes)
    requires |m.mtu| == 3
    ensures |b| == METRIC_LEN
  {
    Be32(m.delay) + Be32(m.bandwidth) + m.mtu + [m.hops, m.reliability, m.load, m.tag, m.flags]
  }

  function EmetricBytes(e: Emetric): (b: Bytes)
    ensures |b| == EMETRIC_LEN
  {
    Be32(e.routerId) + Be32(e.as_) + Be32(e.tag) + Be32(e.metric) + Be16(e.reserved) + [e.protocol, e.flags]
  }

  function KindBytes(k: Kind): (b: Bytes)
    ensures |b| == if k.External? then EMETRIC_LEN else 0
  {
    if k.External? then EmetricBytes(k.emetric) else []
  }

  function TypeOf(k: Kind): uint16 {
    if k.External? then TYPE_EXTERNAL else TYPE_INTERNAL
  }

  /** Everything behind the record header. */
  function RouteBody(ri: Rinfo, littleEndian: bool): (b: Bytes)
    requires Shaped(ri)
    ensures |b| == LenRoute(ri) - HDR_LEN
  {
    Swapped(ri.nexthop, littleEndian) + KindBytes(ri.kind) + MetricBytes(ri.metric) + [ri.prefixlen]
    + ri.prefix[..PrefixSize4(ri.prefixlen)]
  }

  /** The record as written; its length field is patched in at the end and is
      what was announced beforehand. */
  function EncodeRoute(ri: Rinfo, littleEndian: bool): (b: Bytes)
    requires Shaped(ri)
    ensures |b| == LenRoute(ri)
  {
    Be16(TypeOf(ri.kind)) + Be16(LenRoute(ri)) + RouteBody(ri, littleEndian)
  }

  // ---------------------------------------------------------------- routes in

  /** `Undefined` stands for a prefix length the mask shift is not defined for. */
  datatype Decoded = Malformed | Undefined | Route(ri: Rinfo)

  predicate BadAddr(a: Bytes)
    requires |a| == 4
  {
    a[0] == 0 || a[0] == 127 || 224 <= a[0] <= 239
  }

  function ReadMetric(b: Bytes): Metric
    requires |b| == METRIC_LEN
  {
    Metric(Word(b[..4]), Word(b[4..8]), b[8..11], b[11], b[12], b[13], b[14], b[15])
  }

  function ReadEmetric(b: Bytes): Emetric
    requires |b| == EMETRIC_LEN
  {
    Emetric(Word(b[..4]), Word(b[4..8]), Word(b[8..12]), Word(b[12..16]), Half(b[16..18]), b[18], b[19])
  }

  /** The destination: whatever bytes the record has left, zero-filled, checked
      and then masked. */
  function ReadPrefix(data: Bytes, prefixlen: uint8): Option<Bytes>
    requires |data| <= 4 && prefixlen <= 32
  {
    if BadAddr(Filled(data)) then None else Some(AndBytes(Filled(data), MaskBytes(prefixlen)))
  }

  function Filled(data: Bytes): Bytes
    requires |data| <= 4
  {
    data + [0, 0, 0, 0][|data|..]
  }

  /** Read a route record; `tlv` spans its whole announced length. */
  function DecodeRoute(external: bool, tlv: Bytes): Decoded {
    var extra := if external then EMETRIC_LEN else 0;
    var minLen := INTERNAL_MIN_LEN + extra;
    if |tlv| < minLen || |tlv| - minLen > 4 then Malformed
    else
      var at := 8 + extra;
      var kind := if external then External(ReadEmetric(tlv[8..at])) else Internal;
      var metric, prefixlen := ReadMetric(tlv[at..at + METRIC_LEN]), tlv[at + METRIC_LEN];
      if prefixlen > 32 then (if BadAddr(Filled(tlv[minLen..])) then Malformed else Undefined)
      else
        match ReadPrefix(tlv[minLen..], prefixlen)
        case None => Malformed
        case Some(prefix) => Route(Rinfo(kind, prefix, prefixlen, tlv[4..8], metric))
  }

  // ---------------------------------------------------------------- the round trip of one route

  lemma MetricSurvives(m: Metric)
    requires |m.mtu| == 3
    ensures ReadMetric(MetricBytes(m)) == m
  {
    hide Be32, Word;
    var b := MetricBytes(m);
    assert b[..4] == Be32(m.delay) && b[4..8] == Be32(m.bandwidth) && b[8..11] == m.mtu;
  }

  lemma EmetricSurvives(e: Emetric)
    ensures ReadEmetric(EmetricBytes(e)) == e
  {
    hide Be32, Word, Be16, Half;
    var b := EmetricBytes(e);
    assert b[..4] == Be32(e.routerId) && b[4..8] == Be32(e.as_) && b[8..12] == Be32(e.tag);
    assert b[12..16] == Be32(e.metric) && b[16..18] == Be16(e.reserved);
    HalfOfBe16(e.reserved);
  }

  /** The bytes sent for a masked prefix are enough to restore it. */
  lemma PrefixSurvives(prefix: Bytes, prefixlen: uint8)
    requires |prefix| == 4 && prefixlen <= 32 && Masked(prefix, prefixlen)
    ensures ReadPrefix(prefix[..PrefixSize4(prefixlen)], prefixlen) == if BadAddr(prefix) then None else Some(prefix)
  {
    hide AndBytes, MaskBytes, ByteMasked;
    var w := PrefixSize4(prefixlen);
    var filled := prefix[..w] + [0, 0, 0, 0][w..];
    forall i | 0 <= i < 4 ensures filled[i] == prefix[i] {
      if i >= w { OutsideIsZero(prefix[i]); }
    }
    assert filled == prefix;
    MaskKeeps(prefix, prefixlen);
  }

  lemma Parts(ri: Rinfo, littleEndian: bool)
    requires Shaped(ri)
    ensures var b := EncodeRoute(ri, littleEndian); var at := 8 + |KindBytes(ri.kind)|;
            && Half(b[..2]) == TypeOf(ri.kind) && Half(b[2..4]) == |b|
            && b[4..8] == Swapped(ri.nexthop, littleEndian) && b[8..at] == KindBytes(ri.kind)
            && b[at..at + METRIC_LEN] == MetricBytes(ri.metric) && b[at + METRIC_LEN] == ri.prefixlen
            && b[at + METRIC_LEN + 1..] == ri.prefix[..PrefixSize4(ri.prefixlen)]
  {
    hide MetricBytes, KindBytes, Be16, Half, Swapped;
    HalfOfBe16(TypeOf(ri.kind));
    HalfOfBe16(LenRoute(ri));
    var b := EncodeRoute(ri, littleEndian);
    assert b[..2] == Be16(TypeOf(ri.kind)) && b[2..4] == Be16(LenRoute(ri));
  }

  /** Reading a written route gives it back, up to the byte order of its next
      hop, unless its network is one no router may announce. */
  lemma RouteSurvives(ri: Rinfo, littleEndian: bool)
    requires Shaped(ri) && Masked(ri.prefix, ri.prefixlen)
    ensures DecodeRoute(ri.kind.External?, EncodeRoute(ri, littleEndian)) ==
            if BadAddr(ri.prefix) then Malformed else Route(ri.(nexthop := Swapped(ri.nexthop, littleEndian)))
  {
    hide MetricBytes, EmetricBytes, EncodeRoute, ReadMetric, ReadEmetric, ReadPrefix, Swapped;
    Parts(ri, littleEndian);
    MetricSurvives(ri.metric);
    if ri.kind.External? { EmetricSurvives(ri.kind.emetric); }
    PrefixSurvives(ri.prefix, ri.prefixlen);
  }

  /** Exactly the routes that come back as they were sent: a next hop that is
      unset or reads the same backwards (any, on a big-endian sender), and a
      network that may be announced; the default route is not among them. */
  lemma RouteSurvivesExact(ri: Rinfo, littleEndian: bool)
    requires Shaped(ri) && Masked(ri.prefix, ri.prefixlen)
    ensures DecodeRoute(ri.kind.External?, EncodeRoute(ri, littleEndian)) == Route(ri)
            <==> !BadAddr(ri.prefix) && (littleEndian ==> ri.nexthop[0] == ri.nexthop[3] && ri.nexthop[1] == ri.nexthop[2])
    ensures ri.prefixlen == 0 ==> BadAddr(ri.prefix)
  {
    hide EncodeRoute, DecodeRoute;
    RouteSurvives(ri, littleEndian);
    var s := Swapped(ri.nexthop, littleEndian);
    assert s == ri.nexthop <==> (forall i :: 0 <= i < 4 ==> s[i] == ri.nexthop[i]);
    if ri.prefixlen == 0 { OutsideIsZero(ri.prefix[0]); }
  }

  const DEMO_METRIC := Metric(2560, 25_600, [0, 5, 220], 0, 255, 1, 0, 0)
  const DEMO_ROUTE := Rinfo(Internal, [10, 0, 0, 0], 8, [10, 0, 0, 1], DEMO_METRIC)
  const DEFAULT_ROUTE := Rinfo(Internal, [0, 0, 0, 0], 0, [0, 0, 0, 0], DEMO_METRIC)

  /** From a little-endian sender the next hop 10.0.0.1 arrives as 1.0.0.10, and a
      default route does not arrive at all. */
  lemma RoutesLost()
    ensures DecodeRoute(false, EncodeRoute(DEMO_ROUTE, true)) == Route(DEMO_ROUTE.(nexthop := [1, 0, 0, 10]))
    ensures DecodeRoute(false, EncodeRoute(DEFAULT_ROUTE, true)) == Malformed
  {
    hide EncodeRoute, DecodeRoute;
    Pow2Bytes();
    RouteSurvives(DEMO_ROUTE, true);
    RouteSurvives(DEFAULT_ROUTE, true);
  }

  // ---------------------------------------------------------------- sequence lists

  function AddrBytes(addrs: seq<Bytes>): Bytes {
    if addrs == [] then [] else [4] + addrs[0] + AddrBytes(addrs[1..])
  }

  /** The list of neighbours told not to listen; the length field has 16 bits. */
  function EncodeSeq(addrs: seq<Bytes>): Bytes
    requires HDR_LEN + |AddrBytes(addrs)| < 0x1_0000
  {
    Be16(TYPE_SEQ) + Be16(HDR_LEN + |AddrBytes(addrs)|) + AddrBytes(addrs)
  }

  function ReadAddrs(data: Bytes): Option<seq<Bytes>> {
    if data == [] then Some([])
    else if data[0] > |data| - 1 || data[0] != 4 then None
    else
      match ReadAddrs(data[5..])
      case None => None
      case Some(rest) => Some([data[1..5]] + rest)
  }

  lemma {:induction false} AddrsSurvive(addrs: seq<Bytes>)
    requires forall i :: 0 <= i < |addrs| ==> |addrs[i]| == 4
    ensures ReadAddrs(AddrBytes(addrs)) == Some(addrs)
  {
    if addrs != [] {
      var data := AddrBytes(addrs);
      AddrsSurvive(addrs[1..]);
      assert data[1..5] == addrs[0] && data[5..] == AddrBytes(addrs[1..]);
      assert addrs == [addrs[0]] + addrs[1..];
    }
  }

  // ---------------------------------------------------------------- the walk over a packet

  /** A packet is dropped as a whole on the first malformed record. */
  datatype Walked = Dropped | Unknown | Parsed(routes: seq<Rinfo>, addrs: seq<Bytes>)

  /** The effect of one record on what was collected so far. */
  function Take(tlv: Bytes, got: Walked): Walked
    requires |tlv| >= HDR_LEN && got.Parsed?
  {
    var kind := Half(tlv[..2]);
    if kind == TYPE_PARAMETER then if |tlv| != 12 then Dropped else got
    else if kind == TYPE_SW_VERSION || kind == TYPE_MCAST_SEQ then if |tlv| != 8 then Dropped else got
    else if kind == TYPE_SEQ then
      match ReadAddrs(tlv[HDR_LEN..])
      case None => Dropped
      case Some(more) => got.(addrs := got.addrs + more)
    else if kind == TYPE_INTERNAL || kind == TYPE_EXTERNAL then
      match DecodeRoute(kind == TYPE_EXTERNAL, tlv)
      case Malformed => Dropped
      case Undefined => Unknown
      case Route(ri) => got.(routes := got.routes + [ri])
    else got
  }

  /** Bytes of the record at the head of `buf`, if it is complete. */
  predicate HeadOk(buf: Bytes) {
    |buf| >= HDR_LEN && HDR_LEN <= Half(buf[2..4]) <= |buf|
  }

  function Walk(buf: Bytes, got: Walked): Walked
    requires got.Parsed?
    decreases |buf|
  {
    if buf == [] then got
    else if !HeadOk(buf) then Dropped
    else
      var n := Half(buf[2..4]);
      var next := Take(buf[..n], got);
      if next.Parsed? then Walk(buf[n..], next) else next
  }

  /** Routes that survive the wire unchanged. */
  predicate Sendable(ri: Rinfo, littleEndian: bool) {
    Shaped(ri) && Masked(ri.prefix, ri.prefixlen) && !BadAddr(ri.prefix) && Swapped(ri.nexthop, littleEndian) == ri.nexthop
  }

  predicate AllSendable(rs: seq<Rinfo>, littleEndian: bool) {
    forall i :: 0 <= i < |rs| ==> Sendable(rs[i], littleEndian)
  }

  predicate AllShaped(rs: seq<Rinfo>) {
    forall i :: 0 <= i < |rs| ==> Shaped(rs[i])
  }

  lemma SendableShaped(rs: seq<Rinfo>, littleEndian: bool)
    requires AllSendable(rs, littleEndian)
    ensures AllShaped(rs)
  {}

  function EncodeRoutes(rs: seq<Rinfo>, littleEndian: bool): Bytes
    requires AllShaped(rs)
  {
    if rs == [] then [] else EncodeRoute(rs[0], littleEndian) + EncodeRoutes(rs[1..], littleEndian)
  }

  lemma WalkOne(ri: Rinfo, littleEndian: bool, rest: Bytes, got: Walked)
    requires Sendable(ri, littleEndian) && got.Parsed?
    ensures Walk(EncodeRoute(ri, littleEndian) + rest, got) == Walk(rest, got.(routes := got.routes + [ri]))
  {
    hide EncodeRoute, DecodeRoute, Masked, ReadAddrs, Swapped, Half;
    var b := EncodeRoute(ri, littleEndian);
    var buf := b + rest;
    Parts(ri, littleEndian);
    RouteSurvives(ri, littleEndian);
    assert buf[2..4] == b[2..4] && buf[..|b|] == b && buf[|b|..] == rest && b[..2] == buf[..2];
  }

  /** A packet's routes come back in order, after whatever was collected. */
  lemma {:induction false} WalkRoutes(rs: seq<Rinfo>, littleEndian: bool, got: Walked)
    requires AllSendable(rs, littleEndian) && got.Parsed?
    ensures AllShaped(rs) && Walk(EncodeRoutes(rs, littleEndian), got) == got.(routes := got.routes + rs)
    decreases |rs|
  {
    hide EncodeRoute, Sendable, Take;
    SendableShaped(rs, littleEndian);
    if rs == [] {
      assert got.routes + rs == got.routes;
    } else {
      var next := got.(routes := got.routes + [rs[0]]);
      assert Sendable(rs[0], littleEndian);
      WalkOne(rs[0], littleEndian, EncodeRoutes(rs[1..], littleEndian), got);
      WalkRoutes(rs[1..], littleEndian, next);
      assert got.routes + [rs[0]] + rs[1..] == got.routes + rs;
    }
  }

  /** A sequence list comes back as it was sent, next to the routes. */
  lemma WalkSeq(addrs: seq<Bytes>, rest: Bytes, got: Walked)
    requires forall i :: 0 <= i < |addrs| ==> |addrs[i]| == 4
    requires HDR_LEN + |AddrBytes(addrs)| < 0x1_0000 && got.Parsed?
    ensures Walk(EncodeSeq(addrs) + rest, got) == Walk(rest, got.(addrs := got.addrs + addrs))
  {
    hide AddrBytes, ReadAddrs, Half, Be16;
    var b := EncodeSeq(addrs);
    var buf := b + rest;
    AddrsSurvive(addrs);
    HalfOfBe16(TYPE_SEQ);
    HalfOfBe16(|b|);
    assert buf[2..4] == Be16(|b|) && buf[..|b|] == b && buf[|b|..] == rest && b[..2] == Be16(TYPE_SEQ);
    assert b[HDR_LEN..] == AddrBytes(addrs);
  }

  // ---------------------------------------------------------------- the MTU field

  /** Three bytes of an MTU; higher bits are lost. */
  function EncodeMtu(mtu: nat): (b: Bytes)
    ensures |b| == 3
  {
    [mtu / 0x1_0000 % 0x100, mtu / 0x100 % 0x100, mtu % 0x100]
  }

  function DecodeMtu(b: Bytes): nat
    requires |b| == 3
  {
    var x: int, y: int, z: int := b[0], b[1], b[2];
    x * 0x1_0000 + y * 0x100 + z
  }

  lemma MtuSurvivesExact(mtu: nat)
    ensures DecodeMtu(EncodeMtu(mtu)) == mtu <==> mtu < 0x100_0000
    ensures DecodeMtu(EncodeMtu(mtu)) == mtu % 0x100_0000
  {
    var a, z := mtu / 0x100, mtu % 0x100;
    var b, y := a / 0x100, a % 0x100;
    var c, x := b / 0x100, b % 0x100;
    ModUnique(mtu, 0x1_0000, b, y * 0x100 + z);
    ModUnique(mtu, 0x100_0000, c, x * 0x1_0000 + y * 0x100 + z);
  }
}
