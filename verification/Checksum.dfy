/** Internet checksums: the step-by-step and the deferred-carry algorithm, and a
    sender whose headers a receiver always accepts. */
module Checksum {
  import opened Prelude
  import opened Arithmetic

  const ONES := 0xFFFF

  /** The plain sum of the 16-bit words; a last odd byte is a high byte. */
  function Total(buf: Bytes): nat {
    if buf == [] then 0
    else if |buf| == 1 then High(buf[0])
    else High(buf[0]) + buf[1] + Total(buf[2..])
  }

  function High(b: uint8): nat {
    var v: int := b;
    v * 0x100
  }

  /** The representative of a sum modulo 65535 that is zero only for zero. */
  function Norm(n: nat): (r: uint16)
    ensures r == 0 <==> n == 0
  {
    if n == 0 then 0 else 1 + (n - 1) % ONES
  }

  // ---------------------------------------------------------------- modulo 65535

  lemma NormSmall(n: nat)
    requires n <= ONES
    ensures Norm(n) == n
  {
    if n > 0 { ModUnique(n - 1, ONES, 0, n - 1); }
  }

  /** Multiples of 65535 make no difference to a positive sum. */
  lemma NormShift(n: nat, q: nat)
    requires n > 0
    ensures Norm(n + q * ONES) == Norm(n)
  {
    var d, r := (n - 1) / ONES, (n - 1) % ONES;
    assert n - 1 == d * ONES + r;
    assert (d + q) * ONES == d * ONES + q * ONES;
    ModUnique(n - 1 + q * ONES, ONES, d + q, r);
  }

  lemma NormIs(n: nat) returns (q: nat)
    ensures n == Norm(n) + q * ONES
  {
    if n == 0 {
      q := 0;
    } else {
      q := (n - 1) / ONES;
      assert n - 1 == q * ONES + (n - 1) % ONES;
    }
  }

  /** Sums may be reduced at any point. */
  lemma NormAdd(x: nat, y: nat)
    ensures Norm(Norm(x) + y) == Norm(x + y)
  {
    if x > 0 {
      var q := NormIs(x);
      NormShift(Norm(x) + y, q);
    }
  }

  // ---------------------------------------------------------------- step by step

  function Step(sum: nat, w: nat): nat {
    if sum + w > ONES then sum + w - ONES else sum + w
  }

  lemma StepNorm(sum: nat, w: nat)
    requires sum <= ONES && w <= ONES
    ensures Step(sum, w) == Norm(sum + w)
  {
    if sum + w > ONES {
      NormSmall(sum + w - ONES);
      NormShift(sum + w - ONES, 1);
    } else {
      NormSmall(sum + w);
    }
  }

  /** The sum after the words of `buf`, reduced after every word. */
  function Sum(buf: Bytes, sum: nat): nat
    decreases |buf|
  {
    if buf == [] then sum
    else if |buf| == 1 then Step(sum, High(buf[0]))
    else Sum(buf[2..], Step(sum, High(buf[0]) + buf[1]))
  }

  /** Reducing after every word is reducing once at the end. */
  lemma {:induction false} SumIs(buf: Bytes, sum: nat)
    requires sum <= ONES
    ensures Sum(buf, sum) == Norm(sum + Total(buf))
    decreases |buf|
  {
    if buf == [] {
      NormSmall(sum);
    } else if |buf| == 1 {
      StepNorm(sum, High(buf[0]));
    } else {
      var w := High(buf[0]) + buf[1];
      StepNorm(sum, w);
      SumIs(buf[2..], Step(sum, w));
      NormAdd(sum + w, Total(buf[2..]));
    }
  }

  lemma {:induction false} TotalConcat(a: Bytes, b: Bytes)
    requires |a| % 2 == 0
    ensures Total(a + b) == Total(a) + Total(b)
    decreases |a|
  {
    if a == [] {
      assert a + b == b;
    } else {
      assert (a + b)[2..] == a[2..] + b;
      TotalConcat(a[2..], b);
    }
  }

  /** Chaining the sum over segments is summing their concatenation, as long as
      every segment but the last has even length. */
  lemma SumChains(a: Bytes, b: Bytes, sum: nat)
    requires sum <= ONES && |a| % 2 == 0
    ensures Sum(b, Sum(a, sum)) == Sum(a + b, sum)
  {
    hide Sum, Norm;
    SumIs(a, sum);
    SumIs(b, Sum(a, sum));
    SumIs(a + b, sum);
    TotalConcat(a, b);
    NormAdd(sum + Total(a), Total(b));
  }

  // ---------------------------------------------------------------- deferred carries

  /** Add in the carries accumulated above 16 bits, twice. */
  function Fold(total: nat): nat {
    var once := total / 0x1_0000 + total % 0x1_0000;
    (once + once / 0x1_0000) % 0x1_0000
  }

  lemma FoldNorm(total: nat)
    requires total < 0x1_0000_0000
    ensures Fold(total) == Norm(total)
  {
    var hi, lo := total / 0x1_0000, total % 0x1_0000;
    var once := hi + lo;
    if total > 0 {
      assert total == once + hi * ONES;
      NormShift(once, hi);
      if once >= 0x1_0000 {
        assert once + once / 0x1_0000 == once - ONES + 0x1_0000;
        NormSmall(once - ONES);
        NormShift(once - ONES, 1);
      } else {
        NormSmall(once);
      }
    }
  }

  lemma {:induction false} TotalBound(buf: Bytes)
    ensures 2 * Total(buf) <= ONES * (|buf| + 1)
    decreases |buf|
  {
    if |buf| > 1 { TotalBound(buf[2..]); }
  }

  /** The stored form of a word: bytes exchanged on a little-endian machine. */
  function Store(v: uint16, littleEndian: bool): uint16 {
    if littleEndian then v % 0x100 * 0x100 + v / 0x100 else v
  }

  function WrapSum(sum: nat, littleEndian: bool): uint16 {
    Store(ONES - sum % 0x1_0000, littleEndian)
  }

  function InCksum(buf: Bytes, littleEndian: bool): uint16 {
    ONES - Store(Fold(Total(buf)), littleEndian)
  }

  lemma StoreComplement(v: uint16, littleEndian: bool)
    ensures Store(ONES - v, littleEndian) == ONES - Store(v, littleEndian)
  {
    var a, b := v / 0x100, v % 0x100;
    assert ONES - v == (0xFF - a) * 0x100 + (0xFF - b);
    ModUnique(ONES - v, 0x100, 0xFF - a, 0xFF - b);
  }

  /** Both algorithms give the same checksum for every buffer below 64 kilobytes,
      and the deferred one never overflows its 32 bits. */
  lemma AlgorithmsAgree(buf: Bytes, littleEndian: bool)
    requires |buf| < 0x1_0000
    ensures Total(buf) < 0x1_0000_0000
    ensures InCksum(buf, littleEndian) == WrapSum(Sum(buf, 0), littleEndian)
  {
    hide Sum, Total, Store;
    TotalBound(buf);
    FoldNorm(Total(buf));
    SumIs(buf, 0);
    StoreComplement(Norm(Total(buf)), littleEndian);
  }

  // ---------------------------------------------------------------- sender and receiver

  const IP_LEN := 20
  const UDP_LEN := 8
  const IPPROTO_UDP := 17
  const CLIENT_PORT := 68
  const SERVER_PORT := 67

  /** An IP header around its checksum field; broadcast from no address. */
  function IpHeader(len: uint16, sum: uint16): (h: Bytes)
    ensures |h| == IP_LEN
  {
    [0x45, 0x10] + Be16(len) + [0, 0, 0, 0, 128, IPPROTO_UDP] + Be16(sum) + [0, 0, 0, 0, 255, 255, 255, 255]
  }

  function UdpHeader(len: uint16, sum: uint16): (h: Bytes)
    ensures |h| == UDP_LEN
  {
    Be16(CLIENT_PORT) + Be16(SERVER_PORT) + Be16(len) + Be16(sum)
  }

  /** A checksum as the bytes it leaves in a header, most significant first. */
  function Complement(sum: nat): uint16 {
    ONES - sum % 0x1_0000
  }

  /** The bytes a 16-bit value occupies in memory. */
  function Memory(v: uint16, littleEndian: bool): Bytes {
    if littleEndian then [v % 0x100, v / 0x100] else [v / 0x100, v % 0x100]
  }

  /** On either kind of machine the wrapped sum is stored most significant byte
      first. */
  lemma WrapSumStored(sum: nat, littleEndian: bool)
    ensures Memory(WrapSum(sum, littleEndian), littleEndian) == Be16(Complement(sum))
  {
    var v := Complement(sum);
    ModUnique(v % 0x100 * 0x100 + v / 0x100, 0x100, v % 0x100, v / 0x100);
  }

  function PseudoSum(ip: Bytes, udp: Bytes, payload: Bytes, ulen: nat): nat
    requires |ip| >= IP_LEN
  {
    Sum(udp, Sum(payload, Sum(ip[12..20], IPPROTO_UDP + ulen)))
  }

  /** The headers and payload put on the wire. */
  function Frame(payload: Bytes): Bytes
    requires IP_LEN + UDP_LEN + |payload| < 0x1_0000
  {
    var len, ulen := IP_LEN + UDP_LEN + |payload|, UDP_LEN + |payload|;
    var ip := IpHeader(len, Complement(Sum(IpHeader(len, 0), 0)));
    ip + UdpHeader(ulen, Complement(PseudoSum(ip, UdpHeader(ulen, 0), payload, ulen))) + payload
  }

  /** The receiver's checks on what follows the Ethernet header: the payload if
      both checksums and all lengths are right. A zero UDP checksum is none. */
  function Accepted(p: Bytes): Option<Bytes> {
    if |p| < IP_LEN then None
    else
      var hl := p[0] % 16 * 4;
      if |p| < hl || Complement(Sum(p[..hl], 0)) != 0 || |p| < Half(p[2..4]) then None
      else AcceptedUdp(p, p[hl..])
  }

  function AcceptedUdp(p: Bytes, u: Bytes): Option<Bytes>
    requires |p| >= IP_LEN
  {
    if |u| < UDP_LEN then None
    else
      var ulen := Half(u[4..6]);
      if |u| < ulen || ulen < UDP_LEN then None
      else if Half(u[6..8]) != 0 && Complement(PseudoSum(p, u[..8], u[8..ulen], ulen)) != 0 then None
      else Some(u[8..ulen])
  }

  /** The word that completes any sum to all ones. */
  lemma Completes(total: nat)
    ensures Norm(total + Complement(Norm(total))) == ONES
    ensures Complement(ONES) == 0
  {
    var q := NormIs(total);
    assert total + Complement(Norm(total)) == ONES + q * ONES;
    NormShift(ONES, q);
    NormSmall(ONES);
  }

  lemma TotalBe16(v: uint16)
    ensures Total(Be16(v)) == v
  {
    assert Be16(v)[2..] == [];
  }

  /** Filling in a zero word at an even offset adds it to the sum. */
  lemma TotalField(before: Bytes, v: uint16, after: Bytes)
    requires |before| % 2 == 0
    ensures Total(before + Be16(v) + after) == Total(before + Be16(0) + after) + v
  {
    hide Total, Be16;
    TotalConcat(before + Be16(v), after);
    TotalConcat(before, Be16(v));
    TotalConcat(before + Be16(0), after);
    TotalConcat(before, Be16(0));
    TotalBe16(v);
    TotalBe16(0);
  }

  lemma IpTotal(len: uint16, sum: uint16)
    ensures Total(IpHeader(len, sum)) == Total(IpHeader(len, 0)) + sum
  {
    hide Total, Be16;
    TotalField([0x45, 0x10] + Be16(len) + [0, 0, 0, 0, 128, IPPROTO_UDP], sum, [0, 0, 0, 0, 255, 255, 255, 255]);
  }

  lemma UdpTotal(len: uint16, sum: uint16)
    ensures Total(UdpHeader(len, sum)) == Total(UdpHeader(len, 0)) + sum
  {
    hide Total, Be16;
    var before := Be16(CLIENT_PORT) + Be16(SERVER_PORT) + Be16(len);
    TotalField(before, sum, []);
    assert before + Be16(sum) + [] == UdpHeader(len, sum) && before + Be16(0) + [] == UdpHeader(len, 0);
  }

  /** A completed IP header sums to all ones. */
  lemma IpVerifies(len: uint16)
    ensures Complement(Sum(IpHeader(len, Complement(Sum(IpHeader(len, 0), 0))), 0)) == 0
  {
    hide Sum, Norm, Total, IpHeader, Complement;
    var zero := IpHeader(len, 0);
    SumIs(zero, 0);
    var sum := Complement(Sum(zero, 0));
    IpTotal(len, sum);
    SumIs(IpHeader(len, sum), 0);
    Completes(Total(zero));
  }

  lemma PseudoIs(ip: Bytes, udp: Bytes, payload: Bytes, ulen: nat)
    requires |ip| >= IP_LEN && IPPROTO_UDP + ulen <= ONES
    ensures PseudoSum(ip, udp, payload, ulen) == Norm(IPPROTO_UDP + ulen + Total(ip[12..20]) + Total(payload) + Total(udp))
  {
    hide Sum, Norm, Total;
    var a := IPPROTO_UDP + ulen;
    SumIs(ip[12..20], a);
    SumIs(payload, Sum(ip[12..20], a));
    NormAdd(a + Total(ip[12..20]), Total(payload));
    SumIs(udp, Sum(payload, Sum(ip[12..20], a)));
    NormAdd(a + Total(ip[12..20]) + Total(payload), Total(udp));
  }

  lemma UdpVerifies(ip: Bytes, payload: Bytes, ulen: uint16)
    requires |ip| >= IP_LEN && IPPROTO_UDP + ulen <= ONES
    ensures var sum := Complement(PseudoSum(ip, UdpHeader(ulen, 0), payload, ulen));
            Complement(PseudoSum(ip, UdpHeader(ulen, sum), payload, ulen)) == 0
  {
    hide PseudoSum, Norm, Total, UdpHeader, Complement;
    var sum := Complement(PseudoSum(ip, UdpHeader(ulen, 0), payload, ulen));
    PseudoIs(ip, UdpHeader(ulen, 0), payload, ulen);
    PseudoIs(ip, UdpHeader(ulen, sum), payload, ulen);
    UdpTotal(ulen, sum);
    Completes(IPPROTO_UDP + ulen + Total(ip[12..20]) + Total(payload) + Total(UdpHeader(ulen, 0)));
  }

  lemma UdpFields(ulen: uint16, sum: uint16)
    ensures Half(UdpHeader(ulen, sum)[4..6]) == ulen && Half(UdpHeader(ulen, sum)[6..8]) == sum
  {
    assert UdpHeader(ulen, sum)[4..6] == Be16(ulen) && UdpHeader(ulen, sum)[6..8] == Be16(sum);
    HalfOfBe16(ulen);
    HalfOfBe16(sum);
  }

  lemma IpFields(len: uint16, sum: uint16)
    ensures Half(IpHeader(len, sum)[2..4]) == len && IpHeader(len, sum)[0] == 0x45
  {
    assert IpHeader(len, sum)[2..4] == Be16(len);
    HalfOfBe16(len);
  }

  /** Whatever the payload, and whatever padding follows the frame, the receiver
      accepts it and recovers the payload. */
  lemma FrameAccepted(payload: Bytes, padding: Bytes)
    requires IP_LEN + UDP_LEN + |payload| < 0x1_0000
    ensures Accepted(Frame(payload) + padding) == Some(payload)
  {
    hide Sum, IpHeader, UdpHeader, Complement, Half, PseudoSum;
    var len, ulen := IP_LEN + UDP_LEN + |payload|, UDP_LEN + |payload|;
    var ipSum := Complement(Sum(IpHeader(len, 0), 0));
    var ip := IpHeader(len, ipSum);
    var udpSum := Complement(PseudoSum(ip, UdpHeader(ulen, 0), payload, ulen));
    var udp := UdpHeader(ulen, udpSum);
    var p := Frame(payload) + padding;
    IpVerifies(len);
    IpFields(len, ipSum);
    assert p[..IP_LEN] == ip && p[2..4] == ip[2..4] && p[0] == ip[0];
    UdpAccepted(p, ip, ulen, udpSum, payload, padding);
    assert p[IP_LEN..] == udp + payload + padding;
  }

  lemma UdpAccepted(p: Bytes, ip: Bytes, ulen: uint16, udpSum: uint16, payload: Bytes, padding: Bytes)
    requires |ip| == IP_LEN && |p| >= IP_LEN && p[..IP_LEN] == ip
    requires ulen == UDP_LEN + |payload| && IPPROTO_UDP + ulen <= ONES
    requires udpSum == Complement(PseudoSum(ip, UdpHeader(ulen, 0), payload, ulen))
    ensures AcceptedUdp(p, UdpHeader(ulen, udpSum) + payload + padding) == Some(payload)
  {
    hide Sum, UdpHeader, Complement, Half, PseudoSum;
    var udp := UdpHeader(ulen, udpSum);
    var u := udp + payload + padding;
    UdpFields(ulen, udpSum);
    UdpVerifies(ip, payload, ulen);
    assert u[..8] == udp && u[4..6] == udp[4..6] && u[6..8] == udp[6..8] && u[8..ulen] == payload;
    assert p[12..20] == ip[12..20];
    SamePseudo(p, ip, udp, payload, ulen);
  }

  lemma SamePseudo(p: Bytes, q: Bytes, udp: Bytes, payload: Bytes, ulen: nat)
    requires |p| >= IP_LEN && |q| >= IP_LEN && p[12..20] == q[12..20]
    ensures PseudoSum(p, udp, payload, ulen) == PseudoSum(q, udp, payload, ulen)
  {}

  // ---------------------------------------------------------------- the loops

  /** Pairs of bytes first, then a byte left over. */
  method ComputeChecksum(buf: Bytes, start: uint32) returns (sum: uint32)
    requires start <= ONES
    ensures sum == Sum(buf, start) == Norm(start + Total(buf))
  {
    hide Norm, Total;
    sum := start;
    var i := 0;
    assert buf[0..] == buf;
    while i < |buf| / 2 * 2
      invariant 0 <= i <= |buf| / 2 * 2 && i % 2 == 0 && sum <= ONES
      invariant Sum(buf[i..], sum) == Sum(buf, start)
    {
      ghost var rest := buf[i..];
      assert rest[0] == buf[i] && rest[1] == buf[i + 1] && rest[2..] == buf[i + 2..];
      sum := sum + (High(buf[i]) + buf[i + 1]);
      if sum > ONES {
        sum := sum - ONES;
      }
      i := i + 2;
    }
    if i < |buf| {
      assert buf[i..] == [buf[i]];
      sum := sum + High(buf[i]);
      if sum > ONES {
        sum := sum - ONES;
      }
    } else {
      assert buf[i..] == [];
    }
    SumIs(buf, start);
  }

  lemma TotalStep(buf: Bytes)
    requires |buf| > 1
    ensures Total(buf) == High(buf[0]) + buf[1] + Total(buf[2..])
  {}

  lemma TotalEnd(buf: Bytes)
    requires |buf| <= 1
    ensures Total(buf) == if buf == [] then 0 else High(buf[0])
  {}

  /** A word load in network order is what two byte loads add up to. */
  lemma PairLoad(a: uint8, b: uint8)
    ensures Half([a, b]) == High(a) + b
  {}

  /** Word loads or byte loads, by alignment; carries are folded in at the end.
      Nothing for a buffer the daemon refuses to sum. */
  method ComputeInCksum(buf: Bytes, aligned: bool, littleEndian: bool) returns (r: Option<uint16>)
    ensures |buf| >= 0x1_0000 ==> r == None
    ensures |buf| < 0x1_0000 ==> r == Some(InCksum(buf, littleEndian))
  {
    hide Store, Total, High, Half;
    if |buf| >= 0x1_0000 {
      return None;
    }
    var sum: uint32, p, len := 0, 0, |buf|;
    TotalBound(buf);
    assert buf[0..] == buf;
    while len > 1
      invariant 0 <= p <= |buf| && p + len == |buf|
      invariant sum + Total(buf[p..]) == Total(buf)
    {
      assert buf[p..][2..] == buf[p + 2..];
      TotalStep(buf[p..]);
      PairLoad(buf[p], buf[p + 1]);
      if aligned {
        assert buf[p..p + 2] == [buf[p], buf[p + 1]];
        sum := sum + Half(buf[p..p + 2]);
      } else {
        sum := sum + High(buf[p]);
        sum := sum + buf[p + 1];
      }
      p, len := p + 2, len - 2;
    }
    TotalEnd(buf[p..]);
    if len == 1 {
      sum := sum + High(buf[p]);
    }
    var once := sum / 0x1_0000 + sum % 0x1_0000;
    once := once + once / 0x1_0000;
    r := Some(ONES - Store(once % 0x1_0000, littleEndian));
  }

  /** Fill in the headers, then the checksums over them. */
  method BuildFrame(payload: Bytes) returns (frame: Bytes)
    requires IP_LEN + UDP_LEN + |payload| < 0x1_0000
    ensures frame == Frame(payload)
  {
    hide Sum, Norm, Total;
    var len, ulen := IP_LEN + UDP_LEN + |payload|, UDP_LEN + |payload|;
    var ip := IpHeader(len, 0);
    var sum := ComputeChecksum(ip, 0);
    var c := Complement(sum);
    ip := ip[10 := c / 0x100];
    ip := ip[11 := c % 0x100];
    assert ip == IpHeader(len, c);
    var udp := UdpHeader(ulen, 0);
    sum := ComputeChecksum(ip[12..20], IPPROTO_UDP + ulen);
    sum := ComputeChecksum(payload, sum);
    sum := ComputeChecksum(udp, sum);
    c := Complement(sum);
    udp := udp[6 := c / 0x100];
    udp := udp[7 := c % 0x100];
    assert udp == UdpHeader(ulen, c);
    frame := ip + udp + payload;
  }
}
