/** The kernel route table as the daemon keeps it: lists searched and changed in
    place, each operation proved to take the specified step. */
module KernelTable {
  import opened Prelude
  import opened KernelRoutes

  method FindPrio(levels: seq<Level>, priority: uint8) returns (i: nat)
    ensures i == FindLevel(levels, priority)
  {
    i := 0;
    if priority == ANY_PRIORITY {
      return;
    }
    assert levels[0..] == levels;
    while i < |levels| && levels[i].priority != priority
      invariant i <= |levels| && i + FindLevel(levels[i..], priority) == FindLevel(levels, priority)
    {
      assert levels[i..][1..] == levels[i + 1..];
      i := i + 1;
    }
  }

  method FindGw(hops: seq<Hop>, nexthop: Nexthop) returns (j: nat)
    ensures j == FindHop(hops, nexthop)
  {
    j := 0;
    assert hops[0..] == hops;
    while j < |hops| && hops[j].nexthop != nexthop
      invariant j <= |hops| && j + FindHop(hops[j..], nexthop) == FindHop(hops, nexthop)
    {
      assert hops[j..][1..] == hops[j + 1..];
      j := j + 1;
    }
  }

  method FindPlace(levels: seq<Level>, priority: uint8) returns (i: nat)
    ensures i == Position(levels, priority)
  {
    i := 0;
    assert levels[0..] == levels;
    while i < |levels| && levels[i].priority <= priority
      invariant i <= |levels| && i + Position(levels[i..], priority) == Position(levels, priority)
    {
      assert levels[i..][1..] == levels[i + 1..];
      i := i + 1;
    }
  }

  lemma TableKeysFrom(table: Table, order: seq<Prefix>, i: nat)
    requires i < |order|
    ensures TableKeys(table, order[i..]) == LevelKeys(order[i], LevelsOf(table, order[i])) + TableKeys(table, order[i + 1..])
  {
    assert order[i..][1..] == order[i + 1..];
  }

  lemma TableKeysEnd(table: Table)
    ensures TableKeys(table, []) == []
  {}

  class RouteTable {
    var table: Table
    var fibSync: bool
    var log: seq<RtMsg>

    ghost function View(): Fib
      reads this
    {
      Fib(table, fibSync, log)
    }

    constructor (sync: bool)
      ensures View() == Fib(map[], sync, [])
    {
      table, fibSync, log := map[], sync, [];
    }

    method SendRtmsg(m: RtMsg)
      modifies this`log
      ensures View() == Send(old(View()), m)
    {
      if !fibSync {
        return;
      }
      log := log + [m];
    }

    /** Make sure of the prefix, the level and the hop of a route. */
    method Insert(k: Key)
      modifies this`table
      ensures View() == KernelRoutes.Learn(old(View()), k)
    {
      hide FindLevel, FindHop, Position;
      if k.prefix !in table {
        table := table[k.prefix := []];
      }
      var levels := table[k.prefix];
      var i := FindPrio(levels, k.priority);
      if i == |levels| {
        var at := FindPlace(levels, k.priority);
        levels := levels[..at] + [Level(k.priority, [])] + levels[at..];
        i := FindPrio(levels, k.priority);
      }
      if i < |levels| {
        var j := FindGw(levels[i].hops, k.nexthop);
        if j == |levels[i].hops| {
          levels := levels[i := levels[i].(hops := levels[i].hops + [Hop(k.nexthop, k.priority, false)])];
        }
      }
      table := table[k.prefix := levels];
      assert levels == Ensured(LevelsOf(old(table), k.prefix), k.priority, k.nexthop);
      assert table == old(table)[k.prefix := levels];
    }

    /** Is the route in the table, and where? */
    method Lookup(k: Key) returns (found: bool, i: nat, j: nat)
      ensures found == Entry(table, k).Some?
      ensures found ==> k.prefix in table && i < |table[k.prefix]| && j < |table[k.prefix][i].hops|
      ensures found ==> i == FindLevel(table[k.prefix], k.priority) && j == FindHop(table[k.prefix][i].hops, k.nexthop)
      ensures found ==> Entry(table, k) == Some(table[k.prefix][i].hops[j])
    {
      hide FindLevel, FindHop;
      found, i, j := false, 0, 0;
      if k.prefix in table {
        i := FindPrio(table[k.prefix], k.priority);
        if i < |table[k.prefix]| {
          j := FindGw(table[k.prefix][i].hops, k.nexthop);
          found := j < |table[k.prefix][i].hops|;
        }
      } else {
        NoLevels(LevelsOf(table, k.prefix));
      }
    }

    method Change(k: Key)
      modifies this
      ensures View() == KrChange(old(View()), k)
    {
      hide FindLevel, FindHop, Ensured;
      var found, i, j := Lookup(k);
      var action := if found then RtMsg.Change(k) else Add(k);
      if !found {
        Insert(k);
      } else {
        EnsuredSame(table, k);
      }
      SendRtmsg(action);
      MarkInserted(k);
      assert table == KrChange(old(View()), k).table;
    }

    method MarkInserted(k: Key)
      requires k.prefix in table
      modifies this`table
      ensures table == old(table)[k.prefix := Flagged(old(table)[k.prefix], k.priority, k.nexthop)]
    {
      hide FindLevel, FindHop;
      var found, i, j := Lookup(k);
      if found {
        var levels := table[k.prefix];
        table := table[k.prefix := levels[i := levels[i].(hops := levels[i].hops[j := levels[i].hops[j].(inserted := true)])]];
      }
    }

    /** Take a route out, and whatever becomes empty with it. */
    method Remove(prefix: Prefix, i: nat, j: nat)
      requires prefix in table && i < |table[prefix]| && j < |table[prefix][i].hops|
      modifies this`table
      ensures table == Store(old(table), prefix, Without(old(table)[prefix], i, j))
    {
      var levels := table[prefix];
      var hops := levels[i].hops[..j] + levels[i].hops[j + 1..];
      if hops == [] {
        levels := levels[..i] + levels[i + 1..];
      } else {
        levels := levels[i := levels[i].(hops := hops)];
      }
      if levels == [] {
        table := table - {prefix};
      } else {
        table := table[prefix := levels];
      }
    }

    method Delete(k: Key)
      modifies this
      ensures View() == KrDelete(old(View()), k)
    {
      hide FindLevel, FindHop, Without;
      var found, i, j := Lookup(k);
      if !found || !table[k.prefix][i].hops[j].inserted {
        return;
      }
      SendRtmsg(RtMsg.Delete(Key(k.prefix, table[k.prefix][i].hops[j].stored, k.nexthop)));
      Remove(k.prefix, i, j);
    }

    /** Send a message for every written route of one prefix. */
    method SendPrefix(p: Prefix, add: bool)
      requires p in table && fibSync
      modifies this`log
      ensures log == old(log) + Messages(LevelKeys(p, table[p]), add)
    {
      hide Messages, HopKeys;
      var levels := table[p];
      NoMessages(add);
      ghost var whole := LevelKeys(p, levels);
      var i := 0;
      assert levels[0..] == levels && log == old(log) + Messages([], add);
      ghost var done: seq<Key> := [];
      while i < |levels|
        invariant 0 <= i <= |levels| && log == old(log) + Messages(done, add)
        invariant done + LevelKeys(p, levels[i..]) == whole
      {
        assert levels[i..][1..] == levels[i + 1..];
        ghost var keys := HopKeys(p, levels[i].hops);
        SendLevel(p, levels[i], add);
        MessagesConcat(done, keys, add);
        assert old(log) + Messages(done, add) + Messages(keys, add) == old(log) + Messages(done + keys, add);
        assert done + (keys + LevelKeys(p, levels[i + 1..])) == done + keys + LevelKeys(p, levels[i + 1..]);
        done := done + keys;
        i := i + 1;
      }
      assert done == whole;
    }

    method SendLevel(p: Prefix, level: Level, add: bool)
      requires fibSync
      modifies this`log
      ensures log == old(log) + Messages(HopKeys(p, level.hops), add)
    {
      hide Messages;
      var hops := level.hops;
      NoMessages(add);
      ghost var whole := HopKeys(p, hops);
      ghost var done: seq<Key> := [];
      var j := 0;
      assert hops[0..] == hops && log == old(log) + Messages([], add);
      while j < |hops|
        invariant 0 <= j <= |hops| && log == old(log) + Messages(done, add)
        invariant done + HopKeys(p, hops[j..]) == whole
      {
        assert hops[j..][1..] == hops[j + 1..];
        if hops[j].inserted {
          var k := Key(p, hops[j].stored, hops[j].nexthop);
          SendRtmsg(if add then Add(k) else RtMsg.Delete(k));
          MessagesConcat(done, [k], add);
          OneMessage(k, add);
          assert old(log) + Messages(done, add) + Messages([k], add) == old(log) + Messages(done + [k], add);
          assert done + ([k] + HopKeys(p, hops[j + 1..])) == done + [k] + HopKeys(p, hops[j + 1..]);
          done := done + [k];
        } else {
          assert [] + HopKeys(p, hops[j + 1..]) == HopKeys(p, hops[j + 1..]);
        }
        j := j + 1;
      }
      assert done == whole;
    }

    method SendTable(order: seq<Prefix>, add: bool)
      requires Covers(order, table) && fibSync
      modifies this`log
      ensures log == old(log) + Messages(TableKeys(table, order), add)
    {
      hide LevelKeys, Messages, TableKeys;
      ghost var whole := TableKeys(table, order);
      ghost var done: seq<Key> := [];
      var i := 0;
      NoMessages(add);
      assert order[0..] == order && log == old(log) + Messages([], add);
      assert [] + whole == whole;
      while i < |order|
        invariant 0 <= i <= |order| && log == old(log) + Messages(done, add)
        invariant done + TableKeys(table, order[i..]) == whole
      {
        TableKeysFrom(table, order, i);
        ghost var keys := LevelKeys(order[i], LevelsOf(table, order[i]));
        SendPrefix(order[i], add);
        MessagesConcat(done, keys, add);
        assert old(log) + Messages(done, add) + Messages(keys, add) == old(log) + Messages(done + keys, add);
        assert done + (keys + TableKeys(table, order[i + 1..])) == done + keys + TableKeys(table, order[i + 1..]);
        done := done + keys;
        i := i + 1;
      }
      TableKeysEnd(table);
      assert order[i..] == [] && done + [] == done;
      assert done == whole;
    }

    method CoupleFib(order: seq<Prefix>)
      requires Covers(order, table)
      modifies this
      ensures View() == Couple(old(View()), order)
    {
      hide TableKeys, AllAdds;
      if fibSync {
        return;
      }
      fibSync := true;
      SendTable(order, true);
    }

    method DecoupleFib(order: seq<Prefix>)
      requires Covers(order, table)
      modifies this
      ensures View() == Decouple(old(View()), order)
    {
      hide TableKeys, AllDeletes;
      if !fibSync {
        return;
      }
      SendTable(order, false);
      fibSync := false;
    }
  }

  function Messages(ks: seq<Key>, add: bool): seq<RtMsg> {
    if add then AllAdds(ks) else AllDeletes(ks)
  }

  lemma NoMessages(add: bool)
    ensures Messages([], add) == []
  {}

  lemma OneMessage(k: Key, add: bool)
    ensures Messages([k], add) == [if add then Add(k) else Delete(k)]
  {
    var rest := [k][1..];
    assert rest == [];
    assert AllAdds([k]) == [Add(k)] + AllAdds(rest) && AllDeletes([k]) == [Delete(k)] + AllDeletes(rest);
  }

  lemma {:induction false} MessagesConcat(a: seq<Key>, b: seq<Key>, add: bool)
    ensures Messages(a + b, add) == Messages(a, add) + Messages(b, add)
  {
    if a == [] {
      assert a + b == b;
    } else {
      assert (a + b)[1..] == a[1..] + b;
      MessagesConcat(a[1..], b, add);
    }
  }

  /** Making sure of a route that is there changes nothing. */
  lemma EnsuredSame(table: Table, k: Key)
    requires Entry(table, k).Some?
    ensures Ensured(LevelsOf(table, k.prefix), k.priority, k.nexthop) == LevelsOf(table, k.prefix)
  {}
}
