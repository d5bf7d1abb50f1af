/** Update packets: routes packed up to the MTU, and the loops that write and
    read them. */
module EigrpUpdate {
  import opened Prelude
  import opened EigrpTlv

  /** Bytes of an IPv4 header and an EIGRP header. */
  const OVERHEAD := 40

  // ---------------------------------------------------------------- packing

  predicate Fits(ri: Rinfo, mtu: int) {
    OVERHEAD + LenRoute(ri) <= mtu
  }

  predicate AllFit(rs: seq<Rinfo>, mtu: int) {
    forall i :: 0 <= i < |rs| ==> Fits(rs[i], mtu)
  }

  /** How many of the first routes go into a packet that holds `size` bytes. */
  function Fill(rs: seq<Rinfo>, size: nat, mtu: int): (k: nat)
    ensures k <= |rs|
  {
    if rs == [] || size + LenRoute(rs[0]) > mtu then 0 else 1 + Fill(rs[1..], size + LenRoute(rs[0]), mtu)
  }

  /** What is left after one packet. */
  function Round(rs: seq<Rinfo>, mtu: int): seq<Rinfo> {
    rs[Fill(rs, OVERHEAD, mtu)..]
  }

  /** What is left after `k` packets. */
  function Rounds(rs: seq<Rinfo>, mtu: int, k: nat): seq<Rinfo> {
    if k == 0 then rs else Rounds(Round(rs, mtu), mtu, k - 1)
  }

  /** The routes of each packet; an empty list still makes one packet. */
  function Packed(rs: seq<Rinfo>, mtu: int): seq<seq<Rinfo>>
    requires AllFit(rs, mtu)
    decreases |rs|
  {
    var k := Fill(rs, OVERHEAD, mtu);
    if k == |rs| then [rs] else [rs[..k]] + Packed(rs[k..], mtu)
  }

  lemma {:induction false} FillFits(rs: seq<Rinfo>, size: nat, mtu: int)
    requires size >= OVERHEAD
    ensures AllFit(rs[..Fill(rs, size, mtu)], mtu)
    ensures rs != [] && Fill(rs, size, mtu) == 0 ==> size + LenRoute(rs[0]) > mtu
    decreases |rs|
  {
    if rs != [] && size + LenRoute(rs[0]) <= mtu {
      FillFits(rs[1..], size + LenRoute(rs[0]), mtu);
      var k := Fill(rs[1..], size + LenRoute(rs[0]), mtu);
      forall i | 0 <= i < k + 1 ensures Fits(rs[i], mtu) {
        if i > 0 { assert rs[1..][..k][i - 1] == rs[i]; }
      }
    }
  }

  lemma {:induction false} RoundsEnough(rs: seq<Rinfo>, mtu: int, k: nat)
    requires AllFit(rs, mtu) && k >= |rs|
    ensures Rounds(rs, mtu, k) == []
    decreases k
  {
    if k > 0 {
      FillFits(rs, OVERHEAD, mtu);
      if rs != [] { assert Fits(rs[0], mtu); }
      RoundsEnough(Round(rs, mtu), mtu, k - 1);
    }
  }

  lemma {:induction false} RoundsFit(rs: seq<Rinfo>, mtu: int, k: nat)
    requires Rounds(rs, mtu, k) == []
    ensures AllFit(rs, mtu)
    decreases k
  {
    if k > 0 {
      var n := Fill(rs, OVERHEAD, mtu);
      FillFits(rs, OVERHEAD, mtu);
      RoundsFit(Round(rs, mtu), mtu, k - 1);
      forall i | 0 <= i < |rs| ensures Fits(rs[i], mtu) {
        if i < n { assert rs[..n][i] == rs[i]; } else { assert rs[n..][i - n] == rs[i]; }
      }
    }
  }

  /** Sending ends if and only if every single route fits into a packet of its
      own; otherwise empty packets follow each other forever. */
  lemma SendingEndsExact(rs: seq<Rinfo>, mtu: int)
    ensures (exists k: nat :: Rounds(rs, mtu, k) == []) <==> AllFit(rs, mtu)
    ensures rs != [] ==> (Round(rs, mtu) == rs <==> !Fits(rs[0], mtu))
  {
    hide Rounds, Fill;
    if AllFit(rs, mtu) { RoundsEnough(rs, mtu, |rs|); }
    if exists k: nat :: Rounds(rs, mtu, k) == [] {
      var k: nat :| Rounds(rs, mtu, k) == [];
      RoundsFit(rs, mtu, k);
    }
    FillFits(rs, OVERHEAD, mtu);
    if rs != [] && !Fits(rs[0], mtu) { FillNone(rs, mtu); }
  }

  lemma FillNone(rs: seq<Rinfo>, mtu: int)
    requires rs != [] && !Fits(rs[0], mtu)
    ensures Fill(rs, OVERHEAD, mtu) == 0
  {}

  /** A first route that is too large stays where it is. */
  lemma {:induction false} StuckAtHead(rs: seq<Rinfo>, mtu: int, k: nat)
    requires rs != [] && !Fits(rs[0], mtu)
    ensures Rounds(rs, mtu, k) == rs && Fill(rs, OVERHEAD, mtu) == 0
  {
    FillNone(rs, mtu);
    if k > 0 { StuckAtHead(rs, mtu, k - 1); }
  }

  /** With a route that is too large, everything before the first such route is
      sent and then nothing any more, however long the sending goes on. */
  lemma {:induction false} Stalls(rs: seq<Rinfo>, mtu: int, i: nat, k: nat)
    requires i < |rs| && AllFit(rs[..i], mtu) && !Fits(rs[i], mtu) && k >= i
    ensures Rounds(rs, mtu, k) == rs[i..] && Fill(rs[i..], OVERHEAD, mtu) == 0
    decreases k
  {
    hide Fill, Fits, AllFit;
    if i == 0 {
      assert rs[0..] == rs;
      StuckAtHead(rs, mtu, k);
    } else {
      var n := Fill(rs, OVERHEAD, mtu);
      FillStops(rs, mtu, i);
      StillFit(rs, mtu, i, n);
      FillSome(rs, mtu);
      Stalls(rs[n..], mtu, i - n, k - 1);
      assert rs[n..][i - n..] == rs[i..];
    }
  }

  /** An external host route takes 89 bytes with the headers: at an MTU of 88 it
      is never sent, and empty packets follow each other. */
  lemma HostRouteStalls(ri: Rinfo, k: nat)
    requires ri.kind.External? && ri.prefixlen == 32
    ensures Fits(ri, 89) && Rounds([ri], 88, k) == [ri] && Fill([ri], OVERHEAD, 88) == 0
  {
    StuckAtHead([ri], 88, k);
  }

  lemma StillFit(rs: seq<Rinfo>, mtu: int, i: nat, n: nat)
    requires n <= i <= |rs| && AllFit(rs[..i], mtu)
    ensures AllFit(rs[n..][..i - n], mtu) && (i > 0 ==> Fits(rs[0], mtu))
  {
    hide Fits;
    assert i > 0 ==> rs[..i][0] == rs[0];
    var tail := rs[n..][..i - n];
    forall j | 0 <= j < |tail| ensures Fits(tail[j], mtu) { assert tail[j] == rs[..i][n + j]; }
  }

  lemma FillStops(rs: seq<Rinfo>, mtu: int, i: nat)
    requires i < |rs| && !Fits(rs[i], mtu)
    ensures Fill(rs, OVERHEAD, mtu) <= i
  {
    hide Fill, Fits;
    var n := Fill(rs, OVERHEAD, mtu);
    FillFits(rs, OVERHEAD, mtu);
    assert forall j :: 0 <= j < n ==> rs[..n][j] == rs[j];
  }

  lemma FillSome(rs: seq<Rinfo>, mtu: int)
    requires rs != [] && Fits(rs[0], mtu)
    ensures Fill(rs, OVERHEAD, mtu) > 0
  {}

  // ---------------------------------------------------------------- sizes and contents

  lemma {:induction false} FillSize(rs: seq<Rinfo>, size: nat, mtu: int, littleEndian: bool)
    requires AllShaped(rs) && size <= mtu
    ensures size + |EncodeRoutes(rs[..Fill(rs, size, mtu)], littleEndian)| <= mtu
    decreases |rs|
  {
    hide EncodeRoute, LenRoute;
    if rs != [] && size + LenRoute(rs[0]) <= mtu {
      FillSize(rs[1..], size + LenRoute(rs[0]), mtu, littleEndian);
      var k := Fill(rs[1..], size + LenRoute(rs[0]), mtu);
      assert rs[..k + 1][0] == rs[0] && rs[..k + 1][1..] == rs[1..][..k];
    }
  }

  function Concat(parts: seq<seq<Rinfo>>): seq<Rinfo> {
    if parts == [] then [] else parts[0] + Concat(parts[1..])
  }

  predicate PartsShaped(parts: seq<seq<Rinfo>>) {
    forall i :: 0 <= i < |parts| ==> AllShaped(parts[i])
  }

  /** Record bytes of each packet, behind its header. */
  function Payloads(parts: seq<seq<Rinfo>>, littleEndian: bool): (ps: seq<Bytes>)
    requires PartsShaped(parts)
    ensures |ps| == |parts|
  {
    if parts == [] then [] else [EncodeRoutes(parts[0], littleEndian)] + Payloads(parts[1..], littleEndian)
  }

  lemma {:induction false} PackedParts(rs: seq<Rinfo>, mtu: int)
    requires AllFit(rs, mtu) && AllShaped(rs)
    ensures Concat(Packed(rs, mtu)) == rs && |Packed(rs, mtu)| >= 1 && PartsShaped(Packed(rs, mtu))
    decreases |rs|
  {
    var k := Fill(rs, OVERHEAD, mtu);
    if k == |rs| {
      assert Concat([rs]) == rs + Concat([]);
    } else {
      FillFits(rs, OVERHEAD, mtu);
      assert Fits(rs[0], mtu);
      PackedParts(rs[k..], mtu);
      assert Packed(rs, mtu)[1..] == Packed(rs[k..], mtu);
      assert rs[..k] + rs[k..] == rs;
      forall i | 0 <= i < |Packed(rs, mtu)| ensures AllShaped(Packed(rs, mtu)[i]) {
        if i > 0 { assert Packed(rs, mtu)[i] == Packed(rs[k..], mtu)[i - 1]; }
      }
    }
  }

  lemma {:induction false} PayloadsFit(rs: seq<Rinfo>, mtu: int, littleEndian: bool)
    requires AllFit(rs, mtu) && AllShaped(rs) && mtu >= OVERHEAD
    ensures PartsShaped(Packed(rs, mtu))
    ensures forall p :: p in Payloads(Packed(rs, mtu), littleEndian) ==> OVERHEAD + |p| <= mtu
    decreases |rs|
  {
    hide EncodeRoutes;
    PackedParts(rs, mtu);
    var k := Fill(rs, OVERHEAD, mtu);
    FillSize(rs, OVERHEAD, mtu, littleEndian);
    if k == |rs| {
      assert rs[..k] == rs;
      assert Payloads([rs], littleEndian) == [EncodeRoutes(rs, littleEndian)] + Payloads([], littleEndian);
    } else {
      FillFits(rs, OVERHEAD, mtu);
      assert Fits(rs[0], mtu);
      PayloadsFit(rs[k..], mtu, littleEndian);
      assert Packed(rs, mtu)[1..] == Packed(rs[k..], mtu);
    }
  }

  /** The routes a receiver collects from all packets in turn. */
  function WalkAll(ps: seq<Bytes>): Option<seq<Rinfo>> {
    if ps == [] then Some([])
    else
      var first, rest := Walk(ps[0], Parsed([], [])), WalkAll(ps[1..]);
      if !first.Parsed? || rest.None? then None else Some(first.routes + rest.value)
  }

  lemma {:induction false} WalkParts(parts: seq<seq<Rinfo>>, littleEndian: bool)
    requires PartsShaped(parts) && AllSendable(Concat(parts), littleEndian)
    ensures WalkAll(Payloads(parts, littleEndian)) == Some(Concat(parts))
  {
    hide Walk, EncodeRoutes, Sendable;
    if parts != [] {
      forall i | 0 <= i < |parts[0]| ensures Sendable(parts[0][i], littleEndian) { assert Concat(parts)[i] == parts[0][i]; }
      forall i | 0 <= i < |Concat(parts[1..])| ensures Sendable(Concat(parts[1..])[i], littleEndian) {
        assert Concat(parts)[|parts[0]| + i] == Concat(parts[1..])[i];
      }
      WalkParts(parts[1..], littleEndian);
      WalkRoutes(parts[0], littleEndian, Parsed([], []));
      assert [] + parts[0] == parts[0];
      assert Payloads(parts, littleEndian)[1..] == Payloads(parts[1..], littleEndian);
    }
  }

  /** Whatever list of announceable routes is sent, every packet respects the MTU
      and reading them all returns the list, in order. */
  lemma UpdateRoundTrip(rs: seq<Rinfo>, mtu: int, littleEndian: bool)
    requires AllSendable(rs, littleEndian) && AllFit(rs, mtu) && mtu >= OVERHEAD
    ensures PartsShaped(Packed(rs, mtu))
    ensures var ps := Payloads(Packed(rs, mtu), littleEndian);
            && |ps| >= 1 && WalkAll(ps) == Some(rs)
            && forall p :: p in ps ==> OVERHEAD + |p| <= mtu
  {
    hide Packed, Payloads, WalkAll;
    SendableShaped(rs, littleEndian);
    PackedParts(rs, mtu);
    PayloadsFit(rs, mtu, littleEndian);
    WalkParts(Packed(rs, mtu), littleEndian);
  }

  // ---------------------------------------------------------------- the loops

  /** A growing message buffer. */
  class Buffer {
    var data: Bytes

    constructor ()
      ensures data == []
    {
      data := [];
    }

    method Add(bytes: Bytes)
      modifies this
      ensures data == old(data) + bytes
    {
      data := data + bytes;
    }

    /** Overwrite two bytes already written. */
    method Set16(off: nat, v: uint16)
      requires off + 2 <= |data|
      modifies this
      ensures data == old(data)[..off] + Be16(v) + old(data)[off + 2..]
    {
      data := data[off := v / 0x100];
      data := data[off + 1 := v % 0x100];
    }

    /** Append a route record: a placeholder for its length first, the fields,
        and the length when it is known. */
    method AddRoute(ri: Rinfo, littleEndian: bool)
      requires Shaped(ri)
      modifies this
      ensures data == old(data) + EncodeRoute(ri, littleEndian)
    {
      hide MetricBytes, EmetricBytes, KindBytes, Be16, Swapped, RouteBody;
      var off, len := |data| + 2, HDR_LEN;
      Add(Be16(TypeOf(ri.kind)) + [0, 0]);
      var more := AddBody(ri, littleEndian);
      len := len + more;
      Patched(old(data), Be16(TypeOf(ri.kind)), RouteBody(ri, littleEndian), Be16(len));
      Set16(off, len);
    }

    /** The fields behind the record header; returns their length. */
    method AddBody(ri: Rinfo, littleEndian: bool) returns (len: nat)
      requires Shaped(ri)
      modifies this
      ensures data == old(data) + RouteBody(ri, littleEndian) && len == LenRoute(ri) - HDR_LEN
    {
      hide MetricBytes, EmetricBytes, Be16, Swapped;
      var nexthop := Swapped(ri.nexthop, littleEndian);
      Add(nexthop);
      len := 4;
      if ri.kind.External? {
        Add(EmetricBytes(ri.kind.emetric));
        len := len + EMETRIC_LEN;
      }
      assert data == old(data) + (nexthop + KindBytes(ri.kind));
      Add(MetricBytes(ri.metric));
      len := len + METRIC_LEN;
      assert data == old(data) + (nexthop + KindBytes(ri.kind) + MetricBytes(ri.metric));
      Add([ri.prefixlen]);
      var pflen := PrefixSize4(ri.prefixlen);
      Add(ri.prefix[..pflen]);
      len := len + 1 + pflen;
      assert data == old(data) + RouteBody(ri, littleEndian);
    }
  }

  lemma Patched(before: Bytes, kind: Bytes, body: Bytes, len: Bytes)
    requires |kind| == 2 && |len| == 2
    ensures var data := before + (kind + [0, 0]) + body;
            data[..|before| + 2] + len + data[|before| + 4..] == before + (kind + len + body)
  {}

  /** Send a route list, popping it into packet after packet, and watch the first
      `rounds` packets: the list may be one that is never finished. A missing list
      makes one packet without routes. */
  method SendUpdate(list: Option<seq<Rinfo>>, mtu: int, rounds: nat, littleEndian: bool)
    returns (sent: seq<Bytes>, left: seq<Rinfo>)
    requires list.Some? ==> AllShaped(list.value)
    ensures list.None? ==> sent == [[]] && left == []
    ensures list.Some? ==> Watched(list.value, mtu, rounds, littleEndian, sent, left)
    ensures list.Some? && AllFit(list.value, mtu) && rounds > |list.value| ==>
              left == [] && PartsShaped(Packed(list.value, mtu)) && sent == Payloads(Packed(list.value, mtu), littleEndian)
  {
    hide Watched, Packed, Payloads, AllFit;
    if list.None? {
      return [[]], [];
    }
    sent, left := SendRounds(list.value, mtu, rounds, littleEndian);
    if AllFit(list.value, mtu) && rounds > |list.value| {
      WatchedWhole(list.value, mtu, rounds, littleEndian, sent, left);
    }
  }

  /** The first packets sent, and what is left after them; sending stops with the
      packet that empties the list, and not before. */
  ghost predicate Watched(rs: seq<Rinfo>, mtu: int, rounds: nat, littleEndian: bool, sent: seq<Bytes>, left: seq<Rinfo>) {
    && |sent| <= rounds && left == Rounds(rs, mtu, |sent|) && (|sent| < rounds ==> sent != [] && left == [])
    && (forall i :: 0 <= i < |sent| ==> AllShaped(Rounds(rs, mtu, i)) && sent[i] == Body(Rounds(rs, mtu, i), mtu, littleEndian))
    && (forall i :: 0 < i < |sent| ==> Rounds(rs, mtu, i) != [])
  }

  method SendRounds(list: seq<Rinfo>, mtu: int, rounds: nat, littleEndian: bool) returns (sent: seq<Bytes>, left: seq<Rinfo>)
    requires AllShaped(list)
    ensures Watched(list, mtu, rounds, littleEndian, sent, left)
  {
    hide Rounds, EncodeRoutes, Fill, Shaped;
    left := list;
    sent := [];
    RoundsLast(list, mtu, 0);
    for n := 0 to rounds
      invariant |sent| == n && left == Rounds(list, mtu, n) && AllShaped(left) && (n > 0 ==> left != [])
      invariant forall i :: 0 <= i < n ==> AllShaped(Rounds(list, mtu, i)) && sent[i] == Body(Rounds(list, mtu, i), mtu, littleEndian)
      invariant forall i :: 0 < i < n ==> Rounds(list, mtu, i) != []
    {
      RoundsLast(list, mtu, n);
      var body;
      body, left := FillPacket(left, mtu, littleEndian);
      sent := sent + [body];
      if left == [] {
        return;
      }
    }
  }

  /** Watched to the end, a list that fits is sent as packed. */
  lemma {:induction false} WatchedWhole(rs: seq<Rinfo>, mtu: int, rounds: nat, littleEndian: bool, sent: seq<Bytes>, left: seq<Rinfo>)
    requires AllShaped(rs) && AllFit(rs, mtu) && rounds > |rs| && Watched(rs, mtu, rounds, littleEndian, sent, left)
    ensures left == [] && PartsShaped(Packed(rs, mtu)) && sent == Payloads(Packed(rs, mtu), littleEndian)
    decreases |rs|
  {
    hide EncodeRoutes, Fill, Shaped, Packed, Payloads, PartsShaped;
    var k := Fill(rs, OVERHEAD, mtu);
    PackedParts(rs, mtu);
    PayloadStep(rs, mtu, littleEndian);
    RoundsLast(rs, mtu, 0);
    assert sent != [] && sent[0] == Body(rs, mtu, littleEndian);
    if k == |rs| {
      assert Rounds(rs, mtu, 1) == [];
      assert |sent| == 1;
    } else {
      FillFits(rs, OVERHEAD, mtu);
      assert Fits(rs[0], mtu);
      RestWatched(rs, mtu, rounds, littleEndian, sent, left);
      WatchedWhole(rs[k..], mtu, rounds - 1, littleEndian, sent[1..], left);
      assert sent == [sent[0]] + sent[1..];
    }
  }

  lemma RestWatched(rs: seq<Rinfo>, mtu: int, rounds: nat, littleEndian: bool, sent: seq<Bytes>, left: seq<Rinfo>)
    requires Watched(rs, mtu, rounds, littleEndian, sent, left) && sent != [] && Round(rs, mtu) != []
    ensures Watched(Round(rs, mtu), mtu, rounds - 1, littleEndian, sent[1..], left)
  {
    hide EncodeRoutes, Fill, AllShaped, Body;
    var next := Round(rs, mtu);
    forall i | 0 <= i < |sent| ensures Rounds(next, mtu, i) == Rounds(rs, mtu, i + 1) {}
    assert |sent| == 1 && rounds > 1 ==> Rounds(rs, mtu, 1) == next;
  }

  /** The records of the next packet. */
  function Body(rs: seq<Rinfo>, mtu: int, littleEndian: bool): Bytes
    requires AllShaped(rs)
  {
    EncodeRoutes(rs[..Fill(rs, OVERHEAD, mtu)], littleEndian)
  }

  lemma {:induction false} RoundsLast(rs: seq<Rinfo>, mtu: int, k: nat)
    ensures Rounds(rs, mtu, 0) == rs && Rounds(rs, mtu, k + 1) == Round(Rounds(rs, mtu, k), mtu)
  {
    if k > 0 { RoundsLast(Round(rs, mtu), mtu, k - 1); }
  }

  lemma PayloadStep(rs: seq<Rinfo>, mtu: int, littleEndian: bool)
    requires AllFit(rs, mtu) && AllShaped(rs) && PartsShaped(Packed(rs, mtu))
    ensures var k := Fill(rs, OVERHEAD, mtu); var body := EncodeRoutes(rs[..k], littleEndian);
            && AllFit(rs[k..], mtu) && PartsShaped(Packed(rs[k..], mtu))
            && Payloads(Packed(rs, mtu), littleEndian) ==
               if k == |rs| then [body] else [body] + Payloads(Packed(rs[k..], mtu), littleEndian)
  {
    hide EncodeRoutes, Fill;
    var k := Fill(rs, OVERHEAD, mtu);
    PackedParts(rs[k..], mtu);
    if k == |rs| {
      assert rs[..k] == rs;
      assert Payloads([rs], littleEndian) == [EncodeRoutes(rs, littleEndian)] + Payloads([], littleEndian);
    } else {
      assert Packed(rs, mtu)[1..] == Packed(rs[k..], mtu);
    }
  }

  method FillPacket(list: seq<Rinfo>, mtu: int, littleEndian: bool) returns (body: Bytes, left: seq<Rinfo>)
    requires AllShaped(list)
    ensures body == EncodeRoutes(list[..Fill(list, OVERHEAD, mtu)], littleEndian) && left == Round(list, mtu)
  {
    hide EncodeRoute, LenRoute, Shaped;
    var buf := new Buffer();
    var size := OVERHEAD;
    left := list;
    ghost var n := 0;
    while left != []
      invariant 0 <= n <= |list| && left == list[n..] && AllShaped(left) && size >= 0
      invariant buf.data == EncodeRoutes(list[..n], littleEndian)
      invariant n + Fill(left, size, mtu) == Fill(list, OVERHEAD, mtu)
      decreases |left|
    {
      var len := LenRoute(left[0]);
      if size + len > mtu {
        break;
      }
      size := size + len;
      EncodeSnoc(list[..n], left[0], littleEndian);
      buf.AddRoute(left[0], littleEndian);
      assert list[..n + 1] == list[..n] + [left[0]];
      left := left[1..];
      n := n + 1;
    }
    body := buf.data;
  }

  lemma {:induction false} EncodeSnoc(rs: seq<Rinfo>, ri: Rinfo, littleEndian: bool)
    requires AllShaped(rs) && Shaped(ri)
    ensures AllShaped(rs + [ri])
    ensures EncodeRoutes(rs + [ri], littleEndian) == EncodeRoutes(rs, littleEndian) + EncodeRoute(ri, littleEndian)
  {
    hide EncodeRoute, Shaped;
    if rs == [] {
      assert rs + [ri] == [ri] && [ri][1..] == [];
    } else {
      assert (rs + [ri])[1..] == rs[1..] + [ri];
      EncodeSnoc(rs[1..], ri, littleEndian);
    }
  }

  /** The record loop of a received packet. */
  method ReceiveRecords(packet: Bytes) returns (result: Walked)
    ensures result == Walk(packet, Parsed([], []))
  {
    hide Take;
    var p, len := 0, |packet|;
    result := Parsed([], []);
    assert packet[0..] == packet;
    while len > 0
      invariant 0 <= p <= |packet| && p + len == |packet| && result.Parsed?
      invariant Walk(packet[p..], result) == Walk(packet, Parsed([], []))
      decreases len
    {
      ghost var rest := packet[p..];
      if len < HDR_LEN {
        return Dropped;
      }
      var n := Half(packet[p + 2..p + 4]);
      assert rest[2..4] == packet[p + 2..p + 4];
      if n < HDR_LEN || n > len {
        return Dropped;
      }
      assert rest[..n] == packet[p..p + n] && rest[n..] == packet[p + n..];
      result := Take(packet[p..p + n], result);
      if !result.Parsed? {
        return;
      }
      p, len := p + n, len - n;
    }
  }
}
