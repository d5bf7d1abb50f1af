/** The option area of a DHCP reply: what a list of options means, and above all
    which routes it yields (RFC 3442). */
module DhcpOptions {
  import opened Prelude
  import opened Netmask
  import L = DhcpLease

  const PAD: uint8 := 0
  const SUBNET_MASK: uint8 := 1
  const ROUTERS: uint8 := 3
  const NAME_SERVERS: uint8 := 6
  const LEASE_TIME: uint8 := 51
  const MESSAGE_TYPE: uint8 := 53
  const SERVER_IDENTIFIER: uint8 := 54
  const RENEWAL_TIME: uint8 := 58
  const REBINDING_TIME: uint8 := 59
  const CLIENT_IDENTIFIER: uint8 := 61
  const IPV6_ONLY: uint8 := 108
  const CLASSLESS: uint8 := 121
  const END: uint8 := 255

  const MAX_ROUTES := 256
  const MAX_RDNS := 8
  const ZERO4: seq<uint8> := [0, 0, 0, 0]

  datatype Opt = Opt(tag: uint8, data: Bytes)

  /** Addresses as they lie in memory, four bytes each. */
  datatype Route = Route(dst: Bytes, mask: uint32, gw: Bytes)

  const NO_ROUTE := Route(ZERO4, 0, ZERO4)

  /** What the parser has collected; `table` is the fixed-size route table, of
      which `count` entries are in use. */
  datatype Fields = Fields(messageType: uint8, serverId: uint32, lease: uint32, mask: uint32, servers: seq<uint32>,
                           t1: uint32, t2: uint32, v6Time: uint32,
                           classless: bool, routers: bool, table: seq<Route>, count: nat)

  function Empty(): Fields {
    Fields(0, 0, 0, 0, [0, 0, 0, 0, 0, 0, 0, 0], 0, 0, 0, false, false, seq(MAX_ROUTES, _ => NO_ROUTE), 0)
  }

  predicate Shaped(f: Fields) {
    TableOk(f.table) && f.count <= MAX_ROUTES && |f.servers| == MAX_RDNS
  }

  predicate TableOk(table: seq<Route>) {
    |table| == MAX_ROUTES && forall i :: 0 <= i < MAX_ROUTES ==> |table[i].dst| == 4
  }

  // ---------------------------------------------------------------- splitting

  /** The options up to the end marker; nothing if one is cut short. */
  function Split(area: Bytes): Option<seq<Opt>> {
    if area == [] || area[0] == END then Some([])
    else if area[0] == PAD then Split(area[1..])
    else if |area| < 2 || |area| - 2 < area[1] then None
    else
      match Split(area[2 + area[1]..])
      case None => None
      case Some(rest) => Some([Opt(area[0], area[2..2 + area[1]])] + rest)
  }

  // ---------------------------------------------------------------- one option

  /** Routers become routes without destination, while there is room. */
  function FillRouters(table: seq<Route>, count: nat, data: Bytes): (r: (seq<Route>, nat))
    requires |table| == MAX_ROUTES && count <= MAX_ROUTES && |data| % 4 == 0
    ensures |r.0| == MAX_ROUTES && count <= r.1 <= MAX_ROUTES
    ensures forall i :: 0 <= i < MAX_ROUTES ==> r.0[i].dst == table[i].dst && r.0[i].mask == table[i].mask
    decreases |data|
  {
    if count >= MAX_ROUTES || data == [] then (table, count)
    else FillRouters(table[count := table[count].(gw := data[..4])], count + 1, data[4..])
  }

  /** The entry at the head of classless route data, if it is complete. */
  predicate HeadOk(data: Bytes) {
    data != [] && data[0] <= 32 && 1 + PrefixSize(data[0]) + 4 <= |data|
  }

  function HeadSize(data: Bytes): nat
    requires HeadOk(data)
  {
    1 + PrefixSize(data[0]) + 4
  }

  /** Classless routes overwrite table entries while there is room: only the
      significant bytes of the destination are copied. */
  function FillClassless(table: seq<Route>, count: nat, data: Bytes): (r: Option<(seq<Route>, nat)>)
    requires TableOk(table) && count <= MAX_ROUTES
    ensures r.Some? ==> TableOk(r.value.0) && count <= r.value.1 <= MAX_ROUTES
    decreases |data|
  {
    if count >= MAX_ROUTES || data == [] then Some((table, count))
    else if !HeadOk(data) then None
    else
      var w := PrefixSize(data[0]);
      var entry := Route(data[1..1 + w] + table[count].dst[w..], Word(MaskBytes(data[0])), data[1 + w..5 + w]);
      FillClassless(table[count := entry], count + 1, data[HeadSize(data)..])
  }

  function Servers(prev: seq<uint32>, data: Bytes): (s: seq<uint32>)
    requires |prev| == MAX_RDNS && |data| % 4 == 0
    ensures |s| == MAX_RDNS
  {
    seq(MAX_RDNS, i requires 0 <= i < MAX_RDNS => if 4 * i + 4 <= |data| then Word(data[4 * i..4 * i + 4]) else prev[i])
  }

  /** The effect of one option; nothing when its length is wrong. `ownId` says
      that a client identifier is configured, which is then not enforced. */
  function Apply(f: Fields, o: Opt, ownId: bool): (r: Option<Fields>)
    requires Shaped(f)
    ensures r.Some? ==> Shaped(r.value)
  {
    if o.tag == MESSAGE_TYPE then
      if |o.data| != 1 then None else Some(f.(messageType := o.data[0]))
    else if o.tag in {SERVER_IDENTIFIER, LEASE_TIME, SUBNET_MASK, RENEWAL_TIME, REBINDING_TIME, IPV6_ONLY} then
      if |o.data| != 4 then None else Some(SetWord(f, o.tag, Word(o.data)))
    else if o.tag == ROUTERS then
      if |o.data| < 4 || |o.data| % 4 != 0 then None
      else if f.classless then Some(f)
      else
        var filled := FillRouters(f.table, f.count, o.data);
        Some(f.(routers := true, table := filled.0, count := filled.1))
    else if o.tag == NAME_SERVERS then
      if |o.data| < 4 || |o.data| % 4 != 0 then None else Some(f.(servers := Servers(f.servers, o.data)))
    else if o.tag == CLIENT_IDENTIFIER then
      if !ownId && |o.data| != 7 then None else Some(f)
    else if o.tag == CLASSLESS then
      match FillClassless(f.table, if f.routers then 0 else f.count, o.data)
      case None => None
      case Some(filled) => Some(f.(classless := true, routers := false, table := filled.0, count := filled.1))
    else Some(f)
  }

  function SetWord(f: Fields, tag: uint8, w: uint32): Fields {
    if tag == SERVER_IDENTIFIER then f.(serverId := w)
    else if tag == LEASE_TIME then f.(lease := w)
    else if tag == SUBNET_MASK then f.(mask := w)
    else if tag == RENEWAL_TIME then f.(t1 := w)
    else if tag == REBINDING_TIME then f.(t2 := w)
    else f.(v6Time := Max(w, L.MIN_V6ONLY_WAIT))
  }

  /** All options in turn. */
  function Fold(f: Fields, os: seq<Opt>, ownId: bool): (r: Option<Fields>)
    requires Shaped(f)
    ensures r.Some? ==> Shaped(r.value)
    decreases |os|
  {
    if os == [] then Some(f)
    else
      match Apply(f, os[0], ownId)
      case None => None
      case Some(g) => Fold(g, os[1..], ownId)
  }

  function Parse(area: Bytes, ownId: bool): Option<Fields> {
    match Split(area)
    case None => None
    case Some(os) => Fold(Empty(), os, ownId)
  }

  /** The reply handed to the lease state machine. */
  function Reply(f: Fields, yiaddr: uint32): Option<L.Reply> {
    if f.messageType == 2 then Some(L.Offer(f.serverId, yiaddr, f.v6Time))
    else if f.messageType == 5 then Some(L.Ack(f.serverId, yiaddr, f.v6Time, f.lease, f.mask, f.t1, f.t2))
    else if f.messageType == 6 then Some(L.Nak)
    else None
  }

  // ---------------------------------------------------------------- what the routes are

  /** Classless route data read on its own: destinations padded with zeros. */
  function DecodeRoutes(data: Bytes): Option<seq<Route>> {
    if data == [] then Some([])
    else if !HeadOk(data) then None
    else
      var w := PrefixSize(data[0]);
      match DecodeRoutes(data[HeadSize(data)..])
      case None => None
      case Some(rest) => Some([Route(data[1..1 + w] + ZERO4[w..], Word(MaskBytes(data[0])), data[1 + w..5 + w])] + rest)
  }

  function DecodeRouters(data: Bytes): seq<Route>
    requires |data| % 4 == 0
  {
    if data == [] then [] else [Route(ZERO4, 0, data[..4])] + DecodeRouters(data[4..])
  }

  predicate OptOk(o: Opt, ownId: bool) {
    if o.tag == MESSAGE_TYPE then |o.data| == 1
    else if o.tag in {SERVER_IDENTIFIER, LEASE_TIME, SUBNET_MASK, RENEWAL_TIME, REBINDING_TIME, IPV6_ONLY} then |o.data| == 4
    else if o.tag == ROUTERS || o.tag == NAME_SERVERS then |o.data| >= 4 && |o.data| % 4 == 0
    else if o.tag == CLIENT_IDENTIFIER then ownId || |o.data| == 7
    else if o.tag == CLASSLESS then DecodeRoutes(o.data).Some?
    else true
  }

  predicate WellFormed(os: seq<Opt>, ownId: bool) {
    forall i :: 0 <= i < |os| ==> OptOk(os[i], ownId)
  }

  predicate Has(os: seq<Opt>, tag: uint8) {
    exists i :: 0 <= i < |os| && os[i].tag == tag
  }

  /** The routes of one option, if it is of the kind asked for. */
  function RoutesOf(o: Opt, tag: uint8): seq<Route> {
    if o.tag != tag then []
    else if tag == CLASSLESS then (match DecodeRoutes(o.data) case None => [] case Some(rs) => rs)
    else if |o.data| % 4 == 0 then DecodeRouters(o.data) else []
  }

  /** The routes of all options of one kind, in order. */
  function AllRoutes(os: seq<Opt>, tag: uint8): seq<Route> {
    if os == [] then [] else AllRoutes(os[..|os| - 1], tag) + RoutesOf(os[|os| - 1], tag)
  }

  function Cut(rs: seq<Route>): seq<Route> {
    if |rs| <= MAX_ROUTES then rs else rs[..MAX_ROUTES]
  }

  lemma CutMore(rs: seq<Route>, more: seq<Route>)
    ensures Cut(Cut(rs) + more) == Cut(rs + more)
  {}

  /** Destinations and masks never written are still zero. */
  predicate CleanFrom(table: seq<Route>, k: nat) {
    |table| == MAX_ROUTES && forall i :: k <= i < MAX_ROUTES ==> table[i].dst == ZERO4 && table[i].mask == 0
  }

  /** What the parser state says about the options seen so far. */
  predicate Tracks(f: Fields, seen: seq<Opt>) {
    && Shaped(f)
    && f.classless == Has(seen, CLASSLESS)
    && CleanFrom(f.table, if f.classless then f.count else 0)
    && (f.routers ==> !f.classless)
    && (!f.classless && !f.routers ==> f.count == 0)
    && f.table[..f.count] == Cut(AllRoutes(seen, if f.classless then CLASSLESS else ROUTERS))
  }

  lemma {:induction false} FillRoutersMeans(table: seq<Route>, count: nat, data: Bytes)
    requires |table| == MAX_ROUTES && count <= MAX_ROUTES && |data| % 4 == 0 && CleanFrom(table, 0)
    ensures var r := FillRouters(table, count, data);
            CleanFrom(r.0, 0) && r.0[..r.1] == Cut(table[..count] + DecodeRouters(data))
    decreases |data|
  {
    if count >= MAX_ROUTES || data == [] {
      assert table[..count] + [] == table[..count];
      assert count >= MAX_ROUTES ==> Cut(table[..count] + DecodeRouters(data)) == table[..count];
    } else {
      var next := table[count := table[count].(gw := data[..4])];
      FillRoutersMeans(next, count + 1, data[4..]);
      assert next[..count + 1] + DecodeRouters(data[4..]) == table[..count] + DecodeRouters(data);
    }
  }

  lemma {:induction false} FillClasslessMeans(table: seq<Route>, count: nat, data: Bytes)
    requires TableOk(table) && count <= MAX_ROUTES
    requires CleanFrom(table, count) && DecodeRoutes(data).Some?
    ensures var r := FillClassless(table, count, data);
            r.Some? && CleanFrom(r.value.0, r.value.1)
            && r.value.0[..r.value.1] == Cut(table[..count] + DecodeRoutes(data).value)
    decreases |data|
  {
    hide MaskBytes, Word;
    if count >= MAX_ROUTES || data == [] {
      assert table[..count] + [] == table[..count];
      assert count >= MAX_ROUTES ==> Cut(table[..count] + DecodeRoutes(data).value) == table[..count];
    } else {
      var w := PrefixSize(data[0]);
      var entry := Route(data[1..1 + w] + ZERO4[w..], Word(MaskBytes(data[0])), data[1 + w..5 + w]);
      assert table[count].dst == ZERO4;
      var next := table[count := entry];
      assert CleanFrom(next, count + 1);
      FillClasslessMeans(next, count + 1, data[HeadSize(data)..]);
      assert next[..count + 1] + DecodeRoutes(data[HeadSize(data)..]).value == table[..count] + DecodeRoutes(data).value;
    }
  }

  lemma SeenMore(seen: seq<Opt>, o: Opt, tag: uint8)
    ensures Has(seen + [o], tag) <==> Has(seen, tag) || o.tag == tag
    ensures AllRoutes(seen + [o], tag) == AllRoutes(seen, tag) + RoutesOf(o, tag)
  {
    var more := seen + [o];
    assert more[..|more| - 1] == seen && more[|seen|] == o;
    if Has(seen, tag) {
      var i :| 0 <= i < |seen| && seen[i].tag == tag;
      assert more[i].tag == tag;
    }
  }

  /** No classless route without the option that carries it. */
  lemma {:induction false} NoneSeen(seen: seq<Opt>, tag: uint8)
    requires !Has(seen, tag)
    ensures AllRoutes(seen, tag) == []
  {
    if seen != [] {
      var init, last := seen[..|seen| - 1], seen[|seen| - 1];
      assert seen == init + [last];
      SeenMore(init, last, tag);
      NoneSeen(init, tag);
    }
  }

  lemma ApplyClassless(f: Fields, seen: seq<Opt>, o: Opt, ownId: bool)
    requires Tracks(f, seen) && o.tag == CLASSLESS && OptOk(o, ownId)
    ensures Apply(f, o, ownId).Some? && Tracks(Apply(f, o, ownId).value, seen + [o])
  {
    hide FillClassless, AllRoutes, DecodeRoutes;
    SeenMore(seen, o, CLASSLESS);
    var start := if f.routers then 0 else f.count;
    FillClasslessMeans(f.table, start, o.data);
    if !f.classless { NoneSeen(seen, CLASSLESS); }
    CutMore(AllRoutes(seen, CLASSLESS), RoutesOf(o, CLASSLESS));
  }

  lemma ApplyRouters(f: Fields, seen: seq<Opt>, o: Opt, ownId: bool)
    requires Tracks(f, seen) && o.tag == ROUTERS && OptOk(o, ownId)
    ensures Apply(f, o, ownId).Some? && Tracks(Apply(f, o, ownId).value, seen + [o])
  {
    hide FillRouters, AllRoutes, DecodeRouters;
    SeenMore(seen, o, CLASSLESS);
    SeenMore(seen, o, ROUTERS);
    if f.classless {
      assert AllRoutes(seen, CLASSLESS) + [] == AllRoutes(seen, CLASSLESS);
    } else {
      FillRoutersMeans(f.table, f.count, o.data);
      CutMore(AllRoutes(seen, ROUTERS), RoutesOf(o, ROUTERS));
    }
  }

  lemma ApplyOther(f: Fields, seen: seq<Opt>, o: Opt, ownId: bool)
    requires Tracks(f, seen) && o.tag != ROUTERS && o.tag != CLASSLESS && OptOk(o, ownId)
    ensures Apply(f, o, ownId).Some? && Tracks(Apply(f, o, ownId).value, seen + [o])
  {
    hide AllRoutes, FillRouters, FillClassless;
    SeenMore(seen, o, CLASSLESS);
    SeenMore(seen, o, ROUTERS);
    assert AllRoutes(seen, CLASSLESS) + [] == AllRoutes(seen, CLASSLESS);
    assert AllRoutes(seen, ROUTERS) + [] == AllRoutes(seen, ROUTERS);
  }

  lemma {:induction false} FoldTracks(f: Fields, seen: seq<Opt>, os: seq<Opt>, ownId: bool)
    requires Tracks(f, seen) && WellFormed(os, ownId)
    ensures Fold(f, os, ownId).Some? && Tracks(Fold(f, os, ownId).value, seen + os)
    decreases |os|
  {
    hide Apply, OptOk, FillRouters, FillClassless, AllRoutes;
    if os == [] {
      assert seen + os == seen;
    } else {
      assert OptOk(os[0], ownId);
      if os[0].tag == CLASSLESS {
        ApplyClassless(f, seen, os[0], ownId);
      } else if os[0].tag == ROUTERS {
        ApplyRouters(f, seen, os[0], ownId);
      } else {
        ApplyOther(f, seen, os[0], ownId);
      }
      FoldTracks(Apply(f, os[0], ownId).value, seen + [os[0]], os[1..], ownId);
      assert seen + [os[0]] + os[1..] == seen + os;
    }
  }

  /** A well-formed option area is accepted. With a classless route option in it
      the routes are those of the classless options alone, in order, cut at the
      table size, wherever a routers option stands; without, the routers'. */
  lemma RoutesExact(area: Bytes, ownId: bool)
    requires Split(area).Some? && WellFormed(Split(area).value, ownId)
    ensures var os := Split(area).value;
            Parse(area, ownId).Some?
            && var f := Parse(area, ownId).value;
            f.count <= MAX_ROUTES && |f.table| == MAX_ROUTES
            && f.table[..f.count] == Cut(AllRoutes(os, if Has(os, CLASSLESS) then CLASSLESS else ROUTERS))
  {
    hide Fold, AllRoutes;
    var os := Split(area).value;
    assert Tracks(Empty(), []) by { EmptyTracks(); }
    FoldTracks(Empty(), [], os, ownId);
    assert [] + os == os;
  }

  lemma EmptyTracks()
    ensures Tracks(Empty(), [])
  {}

  // ---------------------------------------------------------------- what is accepted

  /** Every entry that still finds room in the table is complete; what follows
      is not looked at. */
  predicate Readable(data: Bytes, room: nat) {
    room == 0 || data == [] || (HeadOk(data) && Readable(data[HeadSize(data)..], room - 1))
  }

  function Entries(data: Bytes, room: nat): (k: nat)
    ensures k <= room
    decreases room
  {
    if room == 0 || data == [] || !HeadOk(data) then 0 else 1 + Entries(data[HeadSize(data)..], room - 1)
  }

  /** Table entries left for option `k`: those the classless options before it
      did not take. */
  function Room(os: seq<Opt>, k: nat): (room: nat)
    requires k <= |os|
    ensures room <= MAX_ROUTES
  {
    if k == 0 then MAX_ROUTES
    else Room(os, k - 1) - if os[k - 1].tag == CLASSLESS then Entries(os[k - 1].data, Room(os, k - 1)) else 0
  }

  predicate Admitted(os: seq<Opt>, ownId: bool, k: nat)
    requires k < |os|
  {
    if os[k].tag == CLASSLESS then Readable(os[k].data, Room(os, k)) else OptOk(os[k], ownId)
  }

  lemma {:induction false} FillClasslessExact(table: seq<Route>, count: nat, data: Bytes)
    requires TableOk(table) && count <= MAX_ROUTES
    ensures FillClassless(table, count, data).Some? <==> Readable(data, MAX_ROUTES - count)
    ensures FillClassless(table, count, data).Some? ==>
              FillClassless(table, count, data).value.1 == count + Entries(data, MAX_ROUTES - count)
    decreases |data|
  {
    hide MaskBytes, Word;
    if count < MAX_ROUTES && HeadOk(data) {
      var w := PrefixSize(data[0]);
      var entry := Route(data[1..1 + w] + table[count].dst[w..], Word(MaskBytes(data[0])), data[1 + w..5 + w]);
      FillClasslessExact(table[count := entry], count + 1, data[HeadSize(data)..]);
    }
  }

  /** The room the parser sees. */
  predicate HasRoom(f: Fields, room: nat) {
    && Shaped(f) && room <= MAX_ROUTES
    && (f.routers ==> !f.classless) && (!f.classless ==> room == MAX_ROUTES)
    && (!f.routers ==> f.count == MAX_ROUTES - room)
  }

  lemma ApplyExact(f: Fields, os: seq<Opt>, ownId: bool, k: nat)
    requires k < |os| && HasRoom(f, Room(os, k))
    ensures Apply(f, os[k], ownId).Some? <==> Admitted(os, ownId, k)
    ensures Apply(f, os[k], ownId).Some? ==> HasRoom(Apply(f, os[k], ownId).value, Room(os, k + 1))
  {
    hide FillClassless, FillRouters, Readable, Entries, DecodeRoutes;
    if os[k].tag == CLASSLESS { FillClasslessExact(f.table, if f.routers then 0 else f.count, os[k].data); }
  }

  lemma {:induction false} FoldExact(f: Fields, os: seq<Opt>, ownId: bool, k: nat)
    requires k <= |os| && HasRoom(f, Room(os, k))
    ensures Fold(f, os[k..], ownId).Some? <==> forall i :: k <= i < |os| ==> Admitted(os, ownId, i)
    decreases |os| - k
  {
    hide Apply, HasRoom, Room, Admitted, Shaped;
    assert Shaped(f) by { RoomShaped(f, Room(os, k)); }
    if k < |os| {
      ApplyExact(f, os, ownId, k);
      assert os[k..][0] == os[k] && os[k..][1..] == os[k + 1..];
      if Apply(f, os[k], ownId).Some? { FoldExact(Apply(f, os[k], ownId).value, os, ownId, k + 1); }
    }
  }

  lemma RoomShaped(f: Fields, room: nat)
    requires HasRoom(f, room)
    ensures Shaped(f)
  {}

  /** A packet is accepted exactly when its options can be told apart, each has
      a length its kind allows and the classless ones are complete as far as the
      table has room; one bad option drops the packet, wherever it stands. */
  lemma AcceptedExact(area: Bytes, ownId: bool)
    ensures Parse(area, ownId).Some? <==>
            Split(area).Some? && forall i :: 0 <= i < |Split(area).value| ==> Admitted(Split(area).value, ownId, i)
  {
    hide Fold, Admitted;
    if Split(area).Some? {
      var os := Split(area).value;
      assert os[0..] == os;
      FoldExact(Empty(), os, ownId, 0);
    }
  }

  /** Whatever the server sent, an IPv6-only time is absent or long enough for
      the lease state machine. */
  lemma {:induction false} FoldV6Time(f: Fields, os: seq<Opt>, ownId: bool)
    requires Shaped(f) && L.V6Ok(f.v6Time) && Fold(f, os, ownId).Some?
    ensures L.V6Ok(Fold(f, os, ownId).value.v6Time)
    decreases |os|
  {
    hide FillRouters, FillClassless;
    if os != [] { FoldV6Time(Apply(f, os[0], ownId).value, os[1..], ownId); }
  }

  lemma ParsedIsEnabled(area: Bytes, ownId: bool, yiaddr: uint32, i: L.Iface, preferV6: bool)
    requires Parse(area, ownId).Some? && Reply(Parse(area, ownId).value, yiaddr).Some?
    ensures L.Enabled(i, L.Receive(Reply(Parse(area, ownId).value, yiaddr).value, preferV6))
  {
    FoldV6Time(Empty(), Split(area).value, ownId);
  }
}
