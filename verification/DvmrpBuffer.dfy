/** Sending route reports through the buffers of an interface, which hold what
    its MTU leaves and drop every piece that does not fit. */
module DvmrpBuffer {
  import opened Prelude
  import opened Netmask
  import opened DvmrpReport

  const HEADER := 8

  /** Add a piece whole or not at all; nobody looks whether it was. */
  function Put(buf: Bytes, piece: Bytes, cap: nat): Bytes {
    if |buf| + |piece| <= cap then buf + piece else buf
  }

  function MaskPart(r: Report, run: nat): Bytes
    requires |r.mask| == 4
  {
    if run != PrefixLen(r.mask) then r.mask[1..] else []
  }

  function NetPart(r: Report): Bytes
    requires |r.net| == 4 && |r.mask| == 4
  {
    r.net[..PrefixSize(PrefixLen(r.mask))]
  }

  function MetricPart(rs: seq<Report>, ifindex: nat): Bytes
    requires rs != [] && Shaped(rs)
  {
    [if EndsRun(rs) then Flag(SentMetric(rs[0], ifindex)) else SentMetric(rs[0], ifindex)]
  }

  /** The first route in three pieces. */
  function PutEntry(buf: Bytes, rs: seq<Report>, run: nat, ifindex: nat, cap: nat): Bytes
    requires rs != [] && Shaped(rs)
  {
    Put(Put(Put(buf, MaskPart(rs[0], run), cap), NetPart(rs[0]), cap), MetricPart(rs, ifindex), cap)
  }

  /** A packet and how many routes were taken off the list for it. */
  function PutPacket(buf: Bytes, rs: seq<Report>, run: nat, ifindex: nat, cap: nat): (r: (Bytes, nat))
    requires Shaped(rs)
    ensures r.1 <= |rs| && (rs != [] && |buf| < CUT ==> r.1 > 0)
    decreases |rs|
  {
    if rs == [] || |buf| >= CUT then (buf, 0)
    else
      var r := PutPacket(PutEntry(buf, rs, run, ifindex, cap), rs[1..], PrefixLen(rs[0].mask), ifindex, cap);
      (r.0, r.1 + 1)
  }

  /** A second buffer takes the header and the packet; without room for the packet
      the header goes alone, without room for the header nothing does. */
  function Posted(body: Bytes, cap: nat): Option<Bytes> {
    if cap < HEADER then None else Some(if HEADER + |body| <= cap then body else [])
  }

  /** Everything that leaves for a list of routes. */
  function PostedAll(rs: seq<Report>, ifindex: nat, cap: nat): seq<Option<Bytes>>
    requires Shaped(rs)
    decreases |rs|
  {
    if rs == [] then []
    else
      var r := PutPacket([], rs, 0, ifindex, cap);
      [Posted(r.0, cap)] + PostedAll(rs[r.1..], ifindex, cap)
  }

  // ---------------------------------------------------------------- when nothing is dropped

  lemma EntryPieces(rs: seq<Report>, run: nat, ifindex: nat)
    requires rs != [] && Shaped(rs)
    ensures Entry(rs, run, ifindex) == MaskPart(rs[0], run) + NetPart(rs[0]) + MetricPart(rs, ifindex)
    ensures 1 <= |Entry(rs, run, ifindex)| <= 8
  {
    hide PrefixLen;
    assert PrefixLen(rs[0].mask) <= 32;
  }

  /** An entry that fits is added whole; one that does not is not. */
  lemma EntryFits(buf: Bytes, rs: seq<Report>, run: nat, ifindex: nat, cap: nat)
    requires rs != [] && Shaped(rs) && |buf| <= cap
    ensures |PutEntry(buf, rs, run, ifindex, cap)| <= cap
    ensures |buf| + |Entry(rs, run, ifindex)| <= cap ==> PutEntry(buf, rs, run, ifindex, cap) == buf + Entry(rs, run, ifindex)
  {
    hide PrefixLen, Entry, MaskPart, NetPart, MetricPart;
    EntryPieces(rs, run, ifindex);
    var a, b, c := MaskPart(rs[0], run), NetPart(rs[0]), MetricPart(rs, ifindex);
    assert buf + a + b + c == buf + (a + b + c);
  }

  /** A packet that fits is built as it should be; otherwise what is built is
      another one, because it fits. */
  lemma {:induction false} PacketFits(buf: Bytes, rs: seq<Report>, run: nat, ifindex: nat, cap: nat)
    requires Shaped(rs) && |buf| <= cap
    ensures var whole := buf + Packet(rs, run, |buf|, ifindex); var r := PutPacket(buf, rs, run, ifindex, cap);
            && |r.0| <= cap
            && (|whole| <= cap ==> r == (whole, PacketLength(rs, run, |buf|, ifindex)))
    decreases |rs|
  {
    hide PrefixLen, Entry, PutEntry;
    if rs == [] || |buf| >= CUT {
      assert buf + [] == buf;
    } else {
      EntryFits(buf, rs, run, ifindex, cap);
      var next, n := PutEntry(buf, rs, run, ifindex, cap), PrefixLen(rs[0].mask);
      PacketFits(next, rs[1..], n, ifindex, cap);
      var entry := Entry(rs, run, ifindex);
      var rest := Packet(rs[1..], n, |buf| + |entry|, ifindex);
      assert buf + (entry + rest) == (buf + entry) + rest;
    }
  }

  function Whole(packets: seq<Bytes>): (r: seq<Option<Bytes>>)
    ensures |r| == |packets|
  {
    if packets == [] then [] else [Some(packets[0])] + Whole(packets[1..])
  }

  predicate AllFit(packets: seq<Bytes>, cap: nat) {
    forall p :: p in packets ==> HEADER + |p| <= cap
  }

  /** Every report leaves as it should if and only if each packet fits behind its
      header. */
  lemma {:induction false} PostedExact(rs: seq<Report>, ifindex: nat, cap: nat)
    requires Shaped(rs)
    ensures PostedAll(rs, ifindex, cap) == Whole(Packets(rs, ifindex)) <==> AllFit(Packets(rs, ifindex), cap)
    decreases |rs|
  {
    hide PutPacket, Packet, PacketLength;
    if rs != [] {
      var p, k := Packet(rs, 0, 0, ifindex), PacketLength(rs, 0, 0, ifindex);
      PacketFits([], rs, 0, ifindex, cap);
      assert [] + p == p;
      NonEmpty(rs, 0, 0, ifindex);
      var ps := Packets(rs, ifindex);
      assert ps == [p] + Packets(rs[k..], ifindex) && ps[1..] == Packets(rs[k..], ifindex);
      if HEADER + |p| <= cap {
        PostedExact(rs[k..], ifindex, cap);
        FitsSplit(p, Packets(rs[k..], ifindex), cap);
        SameTail(Some(p), PostedAll(rs[k..], ifindex, cap), Whole(Packets(rs[k..], ifindex)));
      } else {
        assert p in ps;
        assert PostedAll(rs, ifindex, cap)[0] != Some(p) && Whole(ps)[0] == Some(p);
      }
    }
  }

  lemma FitsSplit(p: Bytes, ps: seq<Bytes>, cap: nat)
    ensures AllFit([p] + ps, cap) <==> HEADER + |p| <= cap && AllFit(ps, cap)
  {
    assert ([p] + ps)[0] == p;
    if AllFit([p] + ps, cap) {
      forall q | q in ps ensures HEADER + |q| <= cap { assert q in [p] + ps; }
    }
  }

  lemma SameTail<T>(x: T, a: seq<T>, b: seq<T>)
    ensures [x] + a == [x] + b <==> a == b
  {
    if [x] + a == [x] + b { assert a == ([x] + a)[1..] == ([x] + b)[1..] == b; }
  }

  lemma {:induction false} PacketSize(rs: seq<Report>, run: nat, size: nat, ifindex: nat)
    requires Shaped(rs) && size < CUT + 8
    ensures size + |Packet(rs, run, size, ifindex)| < CUT + 8
    decreases |rs|
  {
    hide Entry, PrefixLen;
    if rs != [] && size < CUT {
      EntryPieces(rs, run, ifindex);
      PacketSize(rs[1..], PrefixLen(rs[0].mask), size + |Entry(rs, run, ifindex)|, ifindex);
    }
  }

  /** An MTU of 1035, of which the buffers get all but twenty bytes, is enough for
      every list. */
  lemma {:induction false} LargeEnough(rs: seq<Report>, ifindex: nat, cap: nat)
    requires Shaped(rs) && cap >= 1015
    ensures AllFit(Packets(rs, ifindex), cap)
    decreases |rs|
  {
    hide Packet, PacketLength;
    if rs != [] {
      PacketSize(rs, 0, 0, ifindex);
      LargeEnough(rs[PacketLength(rs, 0, 0, ifindex)..], ifindex, cap);
    }
  }

  // ---------------------------------------------------------------- a list that is too long

  /** A run of routes with one 24-bit mask. */
  function Run(n: nat): (rs: seq<Report>)
    ensures |rs| == n && Shaped(rs)
  {
    seq(n, _ => Report([10, 0, 0, 0], [255, 255, 255, 0], 1, 1))
  }

  lemma MaskOf24()
    ensures PrefixLen([255, 255, 255, 0]) == 24
  {
    hide PrefixLen, Word;
    Pow2Bytes();
    assert MaskBytes(24) == [255, 255, 255, 0];
    PrefixLenOfMask(24);
  }

  lemma {:induction false} RunSize(n: nat, size: nat)
    requires size + 4 * n < CUT
    ensures |Packet(Run(n), 24, size, 2)| == 4 * n
  {
    hide PrefixLen;
    MaskOf24();
    if n > 0 {
      assert Run(n)[1..] == Run(n - 1);
      RunSize(n - 1, size + 4);
    }
  }

  /** A hundred and forty routes at an MTU of 576 do not leave as they should. */
  lemma LongListLost()
    ensures PostedAll(Run(140), 2, 556) != Whole(Packets(Run(140), 2)) && !AllFit(Packets(Run(140), 2), 556)
  {
    hide PostedAll, Whole, PrefixLen, Packet, PacketLength;
    var rs := Run(140);
    assert |Packet(rs, 0, 0, 2)| == 563 by { FirstRunSize(140); }
    assert Packet(rs, 0, 0, 2) == Packets(rs, 2)[0];
    PostedExact(rs, 2, 556);
  }

  lemma FirstRunSize(n: nat)
    requires 0 < n && 7 + 4 * n < CUT
    ensures |Packet(Run(n), 0, 0, 2)| == 3 + 4 * n
  {
    hide PrefixLen;
    MaskOf24();
    assert Run(n)[1..] == Run(n - 1);
    RunSize(n - 1, 7);
  }

  // ---------------------------------------------------------------- the loops

  /** A buffer of fixed size. */
  class Buffer {
    const cap: nat
    var data: Bytes

    constructor (cap: nat)
      ensures this.cap == cap && data == []
    {
      this.cap := cap;
      data := [];
    }

    method Add(piece: Bytes)
      modifies this
      ensures data == Put(old(data), piece, cap)
    {
      if |data| + |piece| <= cap {
        data := data + piece;
      }
    }

    /** The first route of the list. */
    method AddEntry(left: seq<Report>, run: nat, ifindex: nat) returns (prefixlen: nat)
      requires Shaped(left) && left != []
      modifies this
      ensures data == PutEntry(old(data), left, run, ifindex, cap) && prefixlen == PrefixLen(left[0].mask)
    {
      hide PrefixLen, Put;
      var r := left[0];
      prefixlen := run;
      if prefixlen != PrefixLen(r.mask) {
        prefixlen := PrefixLen(r.mask);
        Add(r.mask[1..]);
      }
      assert data == Put(old(data), MaskPart(r, run), cap) by { PutNothing(old(data), cap); }
      Add(r.net[..PrefixSize(prefixlen)]);
      var metric: uint8 := if r.ifindex == ifindex then (r.metric + INFINITY_METRIC) % 0x100 else r.metric;
      if |left| == 1 || PrefixLen(left[1].mask) != prefixlen {
        metric := Flag(metric);
      }
      Add([metric]);
    }

    /** Pop routes off the list into the buffer. */
    method Fill(list: seq<Report>, ifindex: nat) returns (left: seq<Report>)
      requires Shaped(list) && list != [] && data == []
      modifies this
      ensures var r := PutPacket([], list, 0, ifindex, cap); data == r.0 && left == list[r.1..] && r.1 > 0
    {
      hide PrefixLen, PutEntry;
      var prefixlen := 0;
      left := list;
      while left != [] && |data| < CUT
        invariant Shaped(left) && |left| <= |list| && left == list[|list| - |left|..]
        invariant var all, r := PutPacket([], list, 0, ifindex, cap), PutPacket(data, left, prefixlen, ifindex, cap);
                  r.0 == all.0 && |list| - |left| + r.1 == all.1
        decreases |left|
      {
        prefixlen := AddEntry(left, prefixlen, ifindex);
        left := left[1..];
      }
    }
  }

  lemma PutNothing(buf: Bytes, cap: nat)
    ensures Put(buf, [], cap) == buf
  {
    assert buf + [] == buf;
  }

  /** All routes, packet by packet. */
  method Send(list: seq<Report>, ifindex: nat, cap: nat) returns (posted: seq<Option<Bytes>>)
    requires Shaped(list)
    ensures posted == PostedAll(list, ifindex, cap)
  {
    hide PutPacket;
    posted := [];
    var left := list;
    while left != []
      invariant Shaped(left) && posted + PostedAll(left, ifindex, cap) == PostedAll(list, ifindex, cap)
      decreases |left|
    {
      var buf := new Buffer(cap);
      ghost var start := left;
      left := buf.Fill(left, ifindex);
      var out := new Buffer(cap);
      var one := Post(out, buf.data);
      assert posted + ([one] + PostedAll(left, ifindex, cap)) == posted + [one] + PostedAll(left, ifindex, cap);
      posted := posted + [one];
    }
  }

  /** The header, then the packet; what leaves is what is behind the header. */
  method Post(out: Buffer, body: Bytes) returns (sent: Option<Bytes>)
    requires out.data == []
    modifies out
    ensures sent == Posted(body, out.cap)
  {
    var header := seq(HEADER, _ => 0);
    out.Add(header);
    if |out.data| < HEADER {
      return None;
    }
    assert out.data == header;
    out.Add(body);
    assert header[HEADER..] == [] && (header + body)[HEADER..] == body;
    return Some(out.data[HEADER..]);
  }
}
