/** The option parser as the engine runs it: one pass over the payload with a
    position and a remainder, filling fixed tables as it goes. */
module DhcpParser {
  import opened Prelude
  import opened Netmask
  import opened DhcpOptions
  import L = DhcpLease

  /** Parsing what is left of the payload on top of what was collected. */
  function ParseFrom(f: Fields, rest: Bytes, ownId: bool): Option<Fields>
    requires Shaped(f)
  {
    match Split(rest)
    case None => None
    case Some(os) => Fold(f, os, ownId)
  }

  lemma ParseDone(f: Fields, rest: Bytes, ownId: bool)
    requires Shaped(f) && (rest == [] || rest[0] == END)
    ensures ParseFrom(f, rest, ownId) == Some(f)
  {}

  lemma ParsePad(f: Fields, rest: Bytes, ownId: bool)
    requires Shaped(f) && rest != [] && rest[0] == PAD
    ensures ParseFrom(f, rest, ownId) == ParseFrom(f, rest[1..], ownId)
  {}

  lemma ParseShort(f: Fields, rest: Bytes, ownId: bool)
    requires Shaped(f) && rest != [] && rest[0] != PAD && rest[0] != END && (|rest| < 2 || |rest| - 2 < rest[1])
    ensures ParseFrom(f, rest, ownId) == None
  {}

  /** One complete option: either it is refused and so is the packet, or parsing
      goes on behind it. */
  lemma ParseOption(f: Fields, rest: Bytes, ownId: bool)
    requires Shaped(f) && |rest| >= 2 && rest[0] != PAD && rest[0] != END && rest[1] <= |rest| - 2
    ensures var o := Opt(rest[0], rest[2..2 + rest[1]]);
            ParseFrom(f, rest, ownId) ==
            (if Apply(f, o, ownId).None? then None else ParseFrom(Apply(f, o, ownId).value, rest[2 + rest[1]..], ownId))
  {
    hide Apply;
    var o := Opt(rest[0], rest[2..2 + rest[1]]);
    if Split(rest[2 + rest[1]..]).Some? {
      var os := Split(rest).value;
      assert os[0] == o && os[1..] == Split(rest[2 + rest[1]..]).value;
    }
  }

  class Parser {
    var messageType: uint8
    var serverId: uint32
    var lease: uint32
    var mask: uint32
    var t1: uint32
    var t2: uint32
    var v6Time: uint32
    var classless: bool
    var routers: bool
    var count: nat
    const servers: array<uint32>
    const table: array<Route>

    ghost predicate Valid()
      reads this, table, servers
    {
      table.Length == MAX_ROUTES && servers.Length == MAX_RDNS && count <= MAX_ROUTES && TableOk(table[..])
    }

    ghost function View(): Fields
      reads this, table, servers
    {
      Fields(messageType, serverId, lease, mask, servers[..], t1, t2, v6Time, classless, routers, table[..], count)
    }

    constructor ()
      ensures Valid() && View() == Empty() && fresh(table) && fresh(servers)
    {
      messageType, serverId, lease, mask, t1, t2, v6Time := 0, 0, 0, 0, 0, 0, 0;
      classless, routers, count := false, false, 0;
      servers := new uint32[MAX_RDNS](_ => 0);
      table := new Route[MAX_ROUTES](_ => NO_ROUTE);
      new;
      assert servers[..] == Empty().servers;
      assert table[..] == Empty().table;
    }

    method StoreRouters(data: Bytes)
      requires Valid() && |data| % 4 == 0
      modifies this`count, table
      ensures Valid() && (table[..], count) == FillRouters(old(table[..]), old(count), data)
    {
      var p := 0;
      while count < MAX_ROUTES && p < |data|
        invariant 0 <= p <= |data| && p % 4 == 0 && Valid()
        invariant FillRouters(table[..], count, data[p..]) == FillRouters(old(table[..]), old(count), data)
        decreases |data| - p
      {
        assert data[p..][..4] == data[p..p + 4] && data[p..][4..] == data[p + 4..];
        ghost var before := table[..];
        table[count] := table[count].(gw := data[p..p + 4]);
        assert table[..] == before[count := before[count].(gw := data[p..p + 4])];
        p := p + 4;
        count := count + 1;
      }
    }

    /** False when an entry is malformed. */
    method StoreClassless(data: Bytes) returns (ok: bool)
      requires Valid()
      modifies this`count, table
      ensures Valid() && ok == FillClassless(old(table[..]), old(count), data).Some?
      ensures ok ==> (table[..], count) == FillClassless(old(table[..]), old(count), data).value
    {
      hide MaskBytes, Word;
      var p := 0;
      while count < MAX_ROUTES && p < |data|
        invariant 0 <= p <= |data| && Valid()
        invariant FillClassless(table[..], count, data[p..]) == FillClassless(old(table[..]), old(count), data)
        decreases |data| - p
      {
        var prefixlen := data[p];
        if prefixlen > 32 {
          return false;
        }
        var w := PrefixSize(prefixlen);
        if |data| - p - 1 < w {
          return false;
        }
        if |data| - p - 1 - w < 4 {
          return false;
        }
        ghost var before, rest := table[..], data[p..];
        assert HeadOk(rest) && rest[1..1 + w] == data[p + 1..p + 1 + w] && rest[1 + w..5 + w] == data[p + 1 + w..p + 5 + w];
        var entry := Route(data[p + 1..p + 1 + w] + table[count].dst[w..], Word(MaskBytes(prefixlen)), data[p + 1 + w..p + 5 + w]);
        table[count] := entry;
        assert table[..] == before[count := entry] && rest[HeadSize(rest)..] == data[p + 5 + w..];
        p := p + 5 + w;
        count := count + 1;
      }
      return true;
    }

    method StoreServers(data: Bytes)
      requires Valid() && |data| % 4 == 0
      modifies servers
      ensures Valid() && servers[..] == Servers(old(servers[..]), data)
      ensures table[..] == old(table[..])
    {
      var i := 0;
      while i < MAX_RDNS && 4 * i + 4 <= |data|
        invariant 0 <= i <= MAX_RDNS && 4 * i <= |data|
        invariant forall j :: 0 <= j < i ==> servers[j] == Servers(old(servers[..]), data)[j]
        invariant forall j :: i <= j < MAX_RDNS ==> servers[j] == old(servers[j])
        invariant table[..] == old(table[..])
      {
        servers[i] := Word(data[4 * i..4 * i + 4]);
        i := i + 1;
      }
    }

    /** One option with its data; false when the packet is to be dropped. */
    method Take(tag: uint8, data: Bytes, ownId: bool) returns (ok: bool)
      requires Valid()
      modifies this, table, servers
      ensures Valid() && ok == Apply(old(View()), Opt(tag, data), ownId).Some?
      ensures ok ==> View() == Apply(old(View()), Opt(tag, data), ownId).value
    {
      hide FillRouters, FillClassless, Servers;
      if tag == MESSAGE_TYPE {
        if |data| != 1 { return false; }
        messageType := data[0];
      } else if tag in {SERVER_IDENTIFIER, LEASE_TIME, SUBNET_MASK, RENEWAL_TIME, REBINDING_TIME, IPV6_ONLY} {
        if |data| != 4 { return false; }
        StoreWord(tag, Word(data));
      } else if tag == ROUTERS {
        if |data| < 4 || |data| % 4 != 0 { return false; }
        if !classless {
          routers := true;
          StoreRouters(data);
        }
      } else if tag == NAME_SERVERS {
        if |data| < 4 || |data| % 4 != 0 { return false; }
        StoreServers(data);
      } else if tag == CLIENT_IDENTIFIER {
        if !ownId && |data| != 7 { return false; }
      } else if tag == CLASSLESS {
        classless := true;
        if routers {
          routers := false;
          count := 0;
        }
        ok := StoreClassless(data);
        return;
      }
      return true;
    }

    method StoreWord(tag: uint8, w: uint32)
      requires Valid()
      modifies this
      ensures Valid() && View() == SetWord(old(View()), tag, w)
    {
      if tag == SERVER_IDENTIFIER { serverId := w; }
      else if tag == LEASE_TIME { lease := w; }
      else if tag == SUBNET_MASK { mask := w; }
      else if tag == RENEWAL_TIME { t1 := w; }
      else if tag == REBINDING_TIME { t2 := w; }
      else {
        v6Time := w;
        if v6Time < L.MIN_V6ONLY_WAIT {
          v6Time := L.MIN_V6ONLY_WAIT;
        }
      }
    }

    /** The option loop: it ends, position and remainder always add up to the
        payload, and nothing outside it is read. */
    method ParseAll(area: Bytes, ownId: bool) returns (ok: bool)
      requires Valid() && View() == Empty()
      modifies this, table, servers
      ensures ok == Parse(area, ownId).Some?
      ensures ok ==> Valid() && View() == Parse(area, ownId).value
    {
      hide Apply, Empty, Split, Fold, Word;
      var p, rem, tag := 0, |area|, PAD;
      ghost var expected := Parse(area, ownId);
      assert expected == ParseFrom(View(), area[0..], ownId) by { assert area[0..] == area; }
      while rem > 0 && tag != END
        invariant p + rem == |area| && p >= 0 && rem >= 0 && Valid()
        invariant tag != END ==> expected == ParseFrom(View(), area[p..], ownId)
        invariant tag == END ==> expected == Some(View())
        decreases rem
      {
        ghost var rest := area[p..];
        tag := area[p];
        p, rem := p + 1, rem - 1;
        if tag == END {
          ParseDone(View(), rest, ownId);
        } else if tag == PAD {
          ParsePad(View(), rest, ownId);
          assert rest[1..] == area[p..];
        } else {
          if rem == 0 {
            ParseShort(View(), rest, ownId);
            return false;
          }
          var len := area[p];
          p, rem := p + 1, rem - 1;
          if rem < len {
            ParseShort(View(), rest, ownId);
            return false;
          }
          ParseOption(View(), rest, ownId);
          assert rest[2..2 + len] == area[p..p + len] && rest[2 + len..] == area[p + len..];
          ok := Take(tag, area[p..p + len], ownId);
          if !ok {
            return false;
          }
          p, rem := p + len, rem - len;
        }
      }
      if tag != END {
        ParseDone(View(), area[p..], ownId);
      }
      return true;
    }
  }
}
