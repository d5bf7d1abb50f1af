/** DVMRP route reports: three-byte masks shared by runs of routes, packets cut
    at a size limit, and the receiver that undoes it all. */
module DvmrpReport {
  import opened Prelude
  import opened Netmask

  const INFINITY_METRIC := 31
  const LAST := 0x80
  const CUT := 1000

  datatype Report = Report(net: Bytes, mask: Bytes, metric: uint8, ifindex: nat)

  /** What a receiver passes on. */
  datatype Heard = Heard(net: Bytes, mask: Bytes, metric: uint8)

  predicate Shaped(rs: seq<Report>) {
    forall i :: 0 <= i < |rs| ==> |rs[i].net| == 4 && |rs[i].mask| == 4
  }

  // ---------------------------------------------------------------- sending

  /** Poison reverse on the interface the route points out of. */
  function SentMetric(r: Report, ifindex: nat): uint8 {
    if r.ifindex == ifindex then (r.metric + INFINITY_METRIC) % 0x100 else r.metric
  }

  function Flag(metric: uint8): uint8 {
    if metric >= LAST then metric else metric + LAST
  }

  /** The last route of a run with one mask is flagged. */
  predicate EndsRun(rs: seq<Report>)
    requires rs != [] && Shaped(rs)
  {
    |rs| == 1 || PrefixLen(rs[1].mask) != PrefixLen(rs[0].mask)
  }

  /** The bytes for the first route, in a packet whose current run has prefix
      length `run`. */
  function Entry(rs: seq<Report>, run: nat, ifindex: nat): Bytes
    requires rs != [] && Shaped(rs)
  {
    var r := rs[0];
    var metric := SentMetric(r, ifindex);
    (if run != PrefixLen(r.mask) then r.mask[1..] else [])
    + r.net[..PrefixSize(PrefixLen(r.mask))]
    + [if EndsRun(rs) then Flag(metric) else metric]
  }

  /** Routes that go into the packet at hand, which already holds `size` bytes. */
  function PacketLength(rs: seq<Report>, run: nat, size: nat, ifindex: nat): (k: nat)
    requires Shaped(rs)
    ensures k <= |rs| && (rs != [] && size < CUT ==> k > 0)
  {
    if rs == [] || size >= CUT then 0
    else 1 + PacketLength(rs[1..], PrefixLen(rs[0].mask), size + |Entry(rs, run, ifindex)|, ifindex)
  }

  function Packet(rs: seq<Report>, run: nat, size: nat, ifindex: nat): Bytes
    requires Shaped(rs)
  {
    if rs == [] || size >= CUT then []
    else Entry(rs, run, ifindex) + Packet(rs[1..], PrefixLen(rs[0].mask), size + |Entry(rs, run, ifindex)|, ifindex)
  }

  /** All packets for a list of routes. */
  function Packets(rs: seq<Report>, ifindex: nat): seq<Bytes>
    requires Shaped(rs)
    decreases |rs|
  {
    if rs == [] then []
    else
      var k := PacketLength(rs, 0, 0, ifindex);
      [Packet(rs, 0, 0, ifindex)] + Packets(rs[k..], ifindex)
  }

  // ---------------------------------------------------------------- receiving

  function Less16(len: uint16, k: nat): uint16 {
    (len - k) % 0x1_0000
  }

  /** The mask field: three bytes below an assumed top byte of ones. */
  function HeardMask(mem: Bytes): Bytes
    requires |mem| >= 4
  {
    [255] + mem[..3]
  }

  /** Routes up to the end of a run. `mem` is the memory from the read position
      on and `len` the length still expected, kept in 16 bits; nothing when the
      memory ends before the reads do. */
  function ReadRun(mem: Bytes, len: uint16, mask: Bytes): Option<seq<Heard>>
    requires |mask| == 4
    decreases |mem|, 0
  {
    var w := PrefixSize(PrefixLen(mask));
    if |mem| < 4 || |mem| < w + 1 then None
    else
      var metric, rest, left := mem[w], mem[w + 1..], Less16(len, w + 1);
      var heard := Heard(AndBytes(mem[..4], mask), mask, metric % LAST);
      var more := if left == 0 then Some([]) else if metric < LAST then ReadRun(rest, left, mask) else ReadMask(rest, left);
      if more.None? then None else Some([heard] + more.value)
  }

  function ReadMask(mem: Bytes, len: uint16): Option<seq<Heard>>
    decreases |mem|, 1
  {
    if |mem| < 4 then None else ReadRun(mem[3..], Less16(len, 3), HeardMask(mem))
  }

  // ---------------------------------------------------------------- the round trip

  /** A route the format can carry: a contiguous mask of eight bits or more, a
      masked network number, a metric that leaves the flag bit alone. */
  predicate Carried(r: Report, ifindex: nat) {
    && |r.net| == 4 && |r.mask| == 4
    && 8 <= PrefixLen(r.mask) <= 32 && r.mask == MaskBytes(PrefixLen(r.mask))
    && Masked(r.net, PrefixLen(r.mask))
    && SentMetric(r, ifindex) < LAST
  }

  predicate AllCarried(rs: seq<Report>, ifindex: nat) {
    forall i :: 0 <= i < |rs| ==> Carried(rs[i], ifindex)
  }

  function HeardOf(r: Report, ifindex: nat): Heard {
    Heard(r.net, r.mask, SentMetric(r, ifindex))
  }

  function AllHeard(rs: seq<Report>, ifindex: nat): (hs: seq<Heard>)
    ensures |hs| == |rs|
  {
    if rs == [] then [] else [HeardOf(rs[0], ifindex)] + AllHeard(rs[1..], ifindex)
  }

  /** The significant bytes of a network number, with anything behind them, mask
      back to that number. */
  lemma NetSurvives(net: Bytes, n: nat, mem: Bytes)
    requires |net| == 4 && n <= 32 && Masked(net, n) && |mem| >= 4
    requires mem[..PrefixSize(n)] == net[..PrefixSize(n)]
    ensures AndBytes(mem[..4], MaskBytes(n)) == net
  {
    hide Pow2, AndByte, HighBits;
    forall i | 0 <= i < 4 ensures AndByte(mem[i], HighBits(BitsIn(n, i))) == net[i] {
      ByteSurvives(net, n, mem, i);
    }
  }

  lemma ByteSurvives(net: Bytes, n: nat, mem: Bytes, i: nat)
    requires |net| == 4 && n <= 32 && Masked(net, n) && |mem| >= 4 && i < 4
    requires mem[..PrefixSize(n)] == net[..PrefixSize(n)]
    ensures AndByte(mem[i], HighBits(BitsIn(n, i))) == net[i]
  {
    hide Pow2, AndByte, HighBits, ByteMasked;
    if i < PrefixSize(n) {
      assert mem[..PrefixSize(n)][i] == net[..PrefixSize(n)][i];
      AndByteKeeps(net[i], BitsIn(n, i));
    } else {
      AndByteClears(mem[i]);
      OutsideIsZero(net[i]);
    }
  }

  /** The three mask bytes sent are enough for masks of eight bits or more. */
  lemma MaskSurvives(mask: Bytes, mem: Bytes)
    requires |mask| == 4 && |mem| >= 4 && mem[..3] == mask[1..] && mask[0] == 255
    ensures HeardMask(mem) == mask
  {}

  lemma TopByte(n: nat)
    requires 8 <= n <= 32
    ensures MaskBytes(n)[0] == 255
  {
    PowZero();
  }

  /** What follows a route in its packet: the rest of the packet and then junk. */
  function After(rs: seq<Report>, run: nat, size: nat, ifindex: nat, junk: Bytes): Bytes
    requires rs != [] && Shaped(rs)
  {
    Packet(rs[1..], PrefixLen(rs[0].mask), size + |Entry(rs, run, ifindex)|, ifindex) + junk
  }

  /** Reading the first route of a run leaves the receiver right behind it. */
  lemma ReadOne(rs: seq<Report>, ifindex: nat, tail: Bytes, len: uint16)
    requires rs != [] && Shaped(rs) && Carried(rs[0], ifindex) && |tail| >= 2
    requires len >= PrefixSize(PrefixLen(rs[0].mask)) + 1
    ensures var n := PrefixLen(rs[0].mask); var w := PrefixSize(n);
            var mem := Entry(rs, n, ifindex) + tail; var left := len - w - 1;
            var more := if left == 0 then Some([]) else if EndsRun(rs) then ReadMask(tail, left) else ReadRun(tail, left, rs[0].mask);
            ReadRun(mem, len, rs[0].mask) == if more.None? then None else Some([HeardOf(rs[0], ifindex)] + more.value)
  {
    hide AndBytes, PrefixLen, MaskBytes, Masked, EndsRun, ReadMask;
    var r, n := rs[0], PrefixLen(rs[0].mask);
    var w := PrefixSize(n);
    var mem := Entry(rs, n, ifindex) + tail;
    assert mem[w] == (if EndsRun(rs) then Flag(SentMetric(r, ifindex)) else SentMetric(r, ifindex));
    assert mem[w + 1..] == tail;
    assert mem[..w] == r.net[..w];
    NetSurvives(r.net, n, mem);
  }

  lemma EntryWithMask(rs: seq<Report>, run: nat, ifindex: nat)
    requires rs != [] && Shaped(rs) && run != PrefixLen(rs[0].mask)
    ensures Entry(rs, run, ifindex) == rs[0].mask[1..] + Entry(rs, PrefixLen(rs[0].mask), ifindex)
  {}

  lemma EntryLength(rs: seq<Report>, run: nat, ifindex: nat)
    requires rs != [] && Shaped(rs) && PrefixLen(rs[0].mask) <= 32
    ensures |Entry(rs, run, ifindex)| == (if run != PrefixLen(rs[0].mask) then 3 else 0) + PrefixSize(PrefixLen(rs[0].mask)) + 1
    ensures |Entry(rs, run, ifindex)| <= 8
  {}

  /** A packet and what it was cut to, read back inside a run or at its start. */
  lemma {:induction false} ReadsBack(rs: seq<Report>, run: nat, size: nat, ifindex: nat, junk: Bytes)
    requires Shaped(rs) && AllCarried(rs, ifindex) && |junk| >= 2 && rs != [] && size < CUT
    requires |Packet(rs, run, size, ifindex)| < 0x1_0000
    ensures var k := PacketLength(rs, run, size, ifindex); var p := Packet(rs, run, size, ifindex);
            var heard := Some(AllHeard(rs[..k], ifindex));
            if run == PrefixLen(rs[0].mask) then ReadRun(p + junk, |p|, rs[0].mask) == heard
            else ReadMask(p + junk, |p|) == heard
    decreases |rs|
  {
    hide ReadRun, ReadMask, Entry, PrefixLen, AllCarried, Carried, MaskBytes;
    var n := PrefixLen(rs[0].mask);
    assert Carried(rs[0], ifindex) by { FirstCarried(rs, ifindex); }
    var inRun := ReadsInRun(rs, run, size, ifindex, junk);
    if run != n {
      EntryWithMask(rs, run, ifindex);
      CarriedBound(rs[0], ifindex);
      MaskFirst(rs[0].mask, inRun, |Packet(rs, run, size, ifindex)|);
      assert Packet(rs, run, size, ifindex) + junk == rs[0].mask[1..] + inRun;
    } else {
      assert Packet(rs, run, size, ifindex) + junk == inRun;
    }
  }

  lemma FirstCarried(rs: seq<Report>, ifindex: nat)
    requires rs != [] && AllCarried(rs, ifindex)
    ensures Carried(rs[0], ifindex) && AllCarried(rs[1..], ifindex)
  {}

  /** The part of a packet behind the mask of its first run, read as that run. */
  lemma {:induction false} ReadsInRun(rs: seq<Report>, run: nat, size: nat, ifindex: nat, junk: Bytes) returns (mem: Bytes)
    requires Shaped(rs) && AllCarried(rs, ifindex) && |junk| >= 2 && rs != [] && size < CUT
    requires |Packet(rs, run, size, ifindex)| < 0x1_0000
    ensures var n := PrefixLen(rs[0].mask);
            mem == Entry(rs, n, ifindex) + After(rs, run, size, ifindex, junk)
            && |mem| == |junk| + |Packet(rs, run, size, ifindex)| - (if run != n then 3 else 0)
            && |mem| >= |junk|
            && ReadRun(mem, |mem| - |junk|, rs[0].mask) == Some(AllHeard(rs[..PacketLength(rs, run, size, ifindex)], ifindex))
    decreases |rs|, 0
  {
    hide ReadRun, ReadMask, Entry, PrefixLen, AllCarried, Carried, MaskBytes;
    var n, k := PrefixLen(rs[0].mask), PacketLength(rs, run, size, ifindex);
    FirstCarried(rs, ifindex);
    assert n <= 32 by { CarriedBound(rs[0], ifindex); }
    EntryLength(rs, run, ifindex);
    EntryLength(rs, n, ifindex);
    var next := size + |Entry(rs, run, ifindex)|;
    var tail := After(rs, run, size, ifindex, junk);
    mem := Entry(rs, n, ifindex) + tail;
    ReadOne(rs, ifindex, tail, |mem| - |junk|);
    assert AllHeard(rs[..k], ifindex) == [HeardOf(rs[0], ifindex)] + AllHeard(rs[1..][..k - 1], ifindex) by {
      assert rs[..k][0] == rs[0] && rs[..k][1..] == rs[1..][..k - 1];
    }
    if rs[1..] == [] || next >= CUT {
      assert PacketLength(rs[1..], n, next, ifindex) == 0 && Packet(rs[1..], n, next, ifindex) == [];
      assert rs[1..][..0] == [];
    } else {
      assert rs[1..][0] == rs[1];
      FirstCarried(rs[1..], ifindex);
      CarriedBound(rs[0], ifindex);
      CarriedBound(rs[1], ifindex);
      NonEmpty(rs[1..], n, next, ifindex);
      ReadsBack(rs[1..], n, next, ifindex, junk);
    }
  }

  lemma CarriedBound(r: Report, ifindex: nat)
    requires Carried(r, ifindex)
    ensures 8 <= PrefixLen(r.mask) <= 32 && r.mask == MaskBytes(PrefixLen(r.mask)) && r.mask[0] == 255
  {
    TopByte(PrefixLen(r.mask));
  }

  lemma NonEmpty(rs: seq<Report>, run: nat, size: nat, ifindex: nat)
    requires Shaped(rs) && rs != [] && size < CUT
    ensures Packet(rs, run, size, ifindex) != []
  {}

  lemma MaskFirst(mask: Bytes, inRun: Bytes, len: uint16)
    requires |mask| == 4 && mask[0] == 255 && inRun != [] && len >= 3
    ensures ReadMask(mask[1..] + inRun, len) == ReadRun(inRun, len - 3, mask)
  {
    hide ReadRun;
    var mem := mask[1..] + inRun;
    MaskSurvives(mask, mem);
    assert mem[3..] == inRun;
  }

  lemma {:induction false} PacketBound(rs: seq<Report>, run: nat, size: nat, ifindex: nat)
    requires Shaped(rs) && AllCarried(rs, ifindex) && size < CUT + 8
    ensures size + |Packet(rs, run, size, ifindex)| < CUT + 8
    decreases |rs|
  {
    hide Carried, Entry, PrefixLen;
    if rs != [] && size < CUT {
      FirstCarried(rs, ifindex);
      CarriedBound(rs[0], ifindex);
      EntryLength(rs, run, ifindex);
      PacketBound(rs[1..], PrefixLen(rs[0].mask), size + |Entry(rs, run, ifindex)|, ifindex);
    }
  }

  /** What the receiver makes of all packets, each followed in memory by `junk`. */
  function ReadAll(packets: seq<Bytes>, junk: Bytes): Option<seq<Heard>> {
    if packets == [] then Some([])
    else if |packets[0]| >= 0x1_0000 then None
    else
      var first, rest := ReadMask(packets[0] + junk, |packets[0]|), ReadAll(packets[1..], junk);
      if first.None? || rest.None? then None else Some(first.value + rest.value)
  }

  lemma {:induction false} HeardSplit(rs: seq<Report>, k: nat, ifindex: nat)
    requires k <= |rs|
    ensures AllHeard(rs[..k], ifindex) + AllHeard(rs[k..], ifindex) == AllHeard(rs, ifindex)
  {
    if k > 0 {
      HeardSplit(rs[1..], k - 1, ifindex);
      assert rs[..k][1..] == rs[1..][..k - 1] && rs[1..][k - 1..] == rs[k..];
    } else {
      assert rs[..0] == [] && rs[0..] == rs;
    }
  }

  /** Reading back every packet returns the routes in order, poisoned metrics
      included, whatever bytes follow each packet in memory; and no packet is
      larger than the size limit and one entry. */
  lemma {:induction false} RoundTrip(rs: seq<Report>, ifindex: nat, junk: Bytes)
    requires AllCarried(rs, ifindex) && |junk| >= 2
    ensures Shaped(rs) && ReadAll(Packets(rs, ifindex), junk) == Some(AllHeard(rs, ifindex))
    ensures forall i :: 0 <= i < |Packets(rs, ifindex)| ==> 0 < |Packets(rs, ifindex)[i]| < CUT + 8
    decreases |rs|
  {
    hide Carried, ReadMask, Packet, PacketLength, PrefixLen;
    CarriedShaped(rs, ifindex);
    if rs != [] {
      var k := PacketLength(rs, 0, 0, ifindex);
      FirstCarried(rs, ifindex);
      CarriedBound(rs[0], ifindex);
      PacketBound(rs, 0, 0, ifindex);
      NonEmpty(rs, 0, 0, ifindex);
      ReadsBack(rs, 0, 0, ifindex, junk);
      RoundTrip(rs[k..], ifindex, junk);
      HeardSplit(rs, k, ifindex);
      assert Packets(rs, ifindex)[1..] == Packets(rs[k..], ifindex);
    }
  }

  lemma CarriedShaped(rs: seq<Report>, ifindex: nat)
    requires AllCarried(rs, ifindex)
    ensures Shaped(rs)
  {}

  // ---------------------------------------------------------------- where it fails

  lemma {:induction false} TopIsOnes(mem: Bytes, len: uint16, mask: Bytes)
    requires |mask| == 4 && mask[0] == 255
    ensures ReadRun(mem, len, mask).Some? ==> forall h :: h in ReadRun(mem, len, mask).value ==> |h.mask| == 4 && h.mask[0] == 255
    decreases |mem|
  {
    hide PrefixLen, AndBytes;
    var w := PrefixSize(PrefixLen(mask));
    if |mem| >= 4 && |mem| >= w + 1 {
      var rest, left := mem[w + 1..], Less16(len, w + 1);
      TopIsOnes(rest, left, mask);
      if |rest| >= 4 { TopIsOnes(rest[3..], Less16(left, 3), HeardMask(rest)); }
    }
  }

  lemma {:induction false} AllTopOnes(packets: seq<Bytes>, junk: Bytes)
    ensures ReadAll(packets, junk).Some? ==> forall h :: h in ReadAll(packets, junk).value ==> |h.mask| == 4 && h.mask[0] == 255
  {
    hide ReadRun;
    if packets != [] && |packets[0]| < 0x1_0000 {
      AllTopOnes(packets[1..], junk);
      var mem := packets[0] + junk;
      if |mem| >= 4 { TopIsOnes(mem[3..], Less16(|packets[0]|, 3), HeardMask(mem)); }
    }
  }

  /** Routes that could be carried but for the length of their masks. */
  predicate Plausible(r: Report, ifindex: nat) {
    && |r.net| == 4 && |r.mask| == 4
    && PrefixLen(r.mask) <= 32 && r.mask == MaskBytes(PrefixLen(r.mask))
    && Masked(r.net, PrefixLen(r.mask))
    && SentMetric(r, ifindex) < LAST
  }

  /** The receiver always supplies a top byte of ones, so a list comes back as
      sent if and only if no mask in it is shorter than eight bits. */
  lemma RoundTripExact(rs: seq<Report>, ifindex: nat, junk: Bytes)
    requires Shaped(rs) && |junk| >= 2 && forall i :: 0 <= i < |rs| ==> Plausible(rs[i], ifindex)
    ensures ReadAll(Packets(rs, ifindex), junk) == Some(AllHeard(rs, ifindex))
            <==> forall i :: 0 <= i < |rs| ==> PrefixLen(rs[i].mask) >= 8
  {
    hide ReadAll, Packets, PrefixLen, Masked, MaskBytes;
    if forall i :: 0 <= i < |rs| ==> PrefixLen(rs[i].mask) >= 8 {
      forall i | 0 <= i < |rs| ensures Carried(rs[i], ifindex) { assert Plausible(rs[i], ifindex); }
      RoundTrip(rs, ifindex, junk);
    } else {
      var i :| 0 <= i < |rs| && PrefixLen(rs[i].mask) < 8;
      assert Plausible(rs[i], ifindex);
      ShortTop(PrefixLen(rs[i].mask));
      HeardAt(rs, ifindex, i);
      AllTopOnes(Packets(rs, ifindex), junk);
    }
  }

  const DEFAULT_REPORT := Report([0, 0, 0, 0], [0, 0, 0, 0], 1, 1)

  /** A default route is not heard as it was sent, whatever follows in memory. */
  lemma DefaultRouteLost(junk: Bytes)
    requires |junk| >= 2
    ensures ReadAll(Packets([DEFAULT_REPORT], 2), junk) != Some([Heard([0, 0, 0, 0], [0, 0, 0, 0], 1)])
  {
    hide ReadAll, Packets, PrefixLen, Plausible;
    var rs := [DEFAULT_REPORT];
    DefaultPlausible();
    assert rs[0] == DEFAULT_REPORT;
    RoundTripExact(rs, 2, junk);
    assert rs[1..] == [] && AllHeard([], 2) == [];
    assert AllHeard(rs, 2) == [HeardOf(DEFAULT_REPORT, 2)] + [] == [Heard([0, 0, 0, 0], [0, 0, 0, 0], 1)];
    assert !(PrefixLen(rs[0].mask) >= 8);
  }

  lemma DefaultPlausible()
    ensures PrefixLen(DEFAULT_REPORT.mask) == 0 && Plausible(DEFAULT_REPORT, 2)
  {
    hide PrefixLen, Word, Pow2;
    Pow2Bytes();
    assert MaskBytes(0) == [0, 0, 0, 0];
    PrefixLenOfMask(0);
  }

  lemma {:induction false} HeardAt(rs: seq<Report>, ifindex: nat, i: nat)
    requires i < |rs|
    ensures HeardOf(rs[i], ifindex) in AllHeard(rs, ifindex)
  {
    if i > 0 { HeardAt(rs[1..], ifindex, i - 1); }
  }

  lemma ShortTop(n: nat)
    requires n < 8
    ensures MaskBytes(n)[0] != 255
  {
    assert Pow2(8 - n) == 2 * Pow2(7 - n);
  }

  // ---------------------------------------------------------------- the loops

  /** What was heard so far and what is still to be read make up the whole. */
  predicate Continues(heard: seq<Heard>, more: Option<seq<Heard>>, whole: Option<seq<Heard>>) {
    if more.None? then whole.None? else whole == Some(heard + more.value)
  }

  lemma ContinuesNone(whole: Option<seq<Heard>>)
    ensures Continues([], whole, whole)
  {
    if whole.Some? { assert [] + whole.value == whole.value; }
  }

  lemma ContinuesMore(heard: seq<Heard>, first: seq<Heard>, more: Option<seq<Heard>>, joined: Option<seq<Heard>>, whole: Option<seq<Heard>>)
    requires Continues(heard, joined, whole) && Continues(first, more, joined)
    ensures Continues(heard + first, more, whole)
  {
    if more.Some? { assert heard + (first + more.value) == heard + first + more.value; }
  }

  /** One route of a run. */
  lemma ReadStep(mem: Bytes, len: uint16, mask: Bytes)
    requires |mask| == 4 && |mem| >= 4 && |mem| >= PrefixSize(PrefixLen(mask)) + 1
    ensures var w := PrefixSize(PrefixLen(mask)); var left := Less16(len, w + 1); var rest := mem[w + 1..];
            Continues([Heard(AndBytes(mem[..4], mask), mask, mem[w] % LAST)],
                      if mem[w] < LAST && left > 0 then ReadRun(rest, left, mask)
                      else if left == 0 then Some([]) else ReadMask(rest, left), ReadRun(mem, len, mask))
  {
    hide PrefixLen, AndBytes, ReadMask;
  }

  /** Read routes under one mask; the position and length come back for the
      next mask. */
  method ReceiveRun(mem: Bytes, p0: nat, len: uint16, netmask: Bytes) returns (ok: bool, heard: seq<Heard>, p: nat, left: uint16)
    requires p0 <= |mem| && |netmask| == 4
    ensures ok ==> p0 < p <= |mem|
    ensures ok ==> Continues(heard, if left == 0 then Some([]) else ReadMask(mem[p..], left), ReadRun(mem[p0..], len, netmask))
    ensures !ok ==> ReadRun(mem[p0..], len, netmask).None?
  {
    hide PrefixLen, AndBytes, ReadMask, Continues;
    heard, p, left := [], p0, len;
    var w, inner := PrefixSize(PrefixLen(netmask)), true;
    ContinuesNone(ReadRun(mem[p0..], len, netmask));
    while inner
      invariant p0 <= p <= |mem| && (!inner ==> p0 < p)
      invariant Continues(heard, if inner then ReadRun(mem[p..], left, netmask)
                                 else if left == 0 then Some([]) else ReadMask(mem[p..], left), ReadRun(mem[p0..], len, netmask))
      decreases |mem| - p, inner
    {
      ghost var rest, was, before := mem[p..], left, heard;
      if |mem| - p < 4 || |mem| - p < w + 1 {
        ContinuesLost(heard, ReadRun(mem[p0..], len, netmask));
        return false, [], p, left;
      }
      var netid, metric := AndBytes(mem[p..p + 4], netmask), mem[p + w];
      assert rest[..4] == mem[p..p + 4] && rest[w + 1..] == mem[p + w + 1..];
      p, left := p + w + 1, Less16(left, w + 1);
      heard := heard + [Heard(netid, netmask, metric % LAST)];
      inner := metric < LAST && left > 0;
      ReadStep(rest, was, netmask);
      ContinuesMore(before, [Heard(netid, netmask, metric % LAST)],
                    if inner then ReadRun(mem[p..], left, netmask)
                    else if left == 0 then Some([]) else ReadMask(mem[p..], left),
                    ReadRun(rest, was, netmask), ReadRun(mem[p0..], len, netmask));
    }
    return true, heard, p, left;
  }

  lemma ContinuesLost(heard: seq<Heard>, whole: Option<seq<Heard>>)
    requires Continues(heard, None, whole)
    ensures whole == None
  {}

  lemma ContinuesDone(heard: seq<Heard>, whole: Option<seq<Heard>>)
    requires Continues(heard, Some([]), whole)
    ensures whole == Some(heard)
  {
    assert heard + [] == heard;
  }

  /** Read a packet of `len` bytes at the start of `mem`; false when the reads
      leave the memory. */
  method Receive(mem: Bytes, len: uint16) returns (ok: bool, heard: seq<Heard>)
    ensures ok == ReadMask(mem, len).Some?
    ensures ok ==> heard == ReadMask(mem, len).value
  {
    hide PrefixLen, ReadRun, Continues;
    heard := [];
    var p: nat, left, more := 0, len, true;
    assert mem[0..] == mem;
    ContinuesNone(ReadMask(mem, len));
    while more
      invariant 0 <= p <= |mem|
      invariant Continues(heard, if more then ReadMask(mem[p..], left) else Some([]), ReadMask(mem, len))
      decreases |mem| - p, more
    {
      ghost var whole := ReadMask(mem[p..], left);
      if |mem| - p < 4 {
        ContinuesLost(heard, ReadMask(mem, len));
        return false, [];
      }
      var netmask: Bytes := [255] + mem[p..p + 3];
      assert netmask == HeardMask(mem[p..]) && mem[p..][3..] == mem[p + 3..];
      var run;
      ok, run, p, left := ReceiveRun(mem, p + 3, Less16(left, 3), netmask);
      if !ok {
        ContinuesLost(heard, ReadMask(mem, len));
        return false, [];
      }
      more := left > 0;
      ContinuesMore(heard, run, if more then ReadMask(mem[p..], left) else Some([]), whole, ReadMask(mem, len));
      heard := heard + run;
    }
    ContinuesDone(heard, ReadMask(mem, len));
    return true, heard;
  }
}
