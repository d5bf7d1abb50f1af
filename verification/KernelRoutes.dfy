/** The table of kernel routes: per prefix a list of priority levels, per level a
    list of next hops, mirrored into the kernel while coupled to it. */
module KernelRoutes {
  import opened Prelude

  type Nexthop = uint32

  /** The wildcard priority finds the first level. */
  const ANY_PRIORITY: uint8 := 64

  /** An entry keeps the priority it was stored with, which is what the kernel is
      told about it; through the wildcard it may differ from its level's. */
  datatype Hop = Hop(nexthop: Nexthop, stored: uint8, inserted: bool)
  datatype Level = Level(priority: uint8, hops: seq<Hop>)
  datatype Key = Key(prefix: Prefix, priority: uint8, nexthop: Nexthop)

  /** Messages on the routing socket. */
  datatype RtMsg = Add(key: Key) | Change(key: Key) | Delete(key: Key)

  type Table = map<Prefix, seq<Level>>

  datatype Fib = Fib(table: Table, coupled: bool, log: seq<RtMsg>)

  // ---------------------------------------------------------------- lookups

  /** The level for a priority, or the number of levels. */
  function FindLevel(levels: seq<Level>, priority: uint8): (i: nat)
    ensures i <= |levels|
  {
    if levels == [] then 0
    else if priority == ANY_PRIORITY || levels[0].priority == priority then 0
    else 1 + FindLevel(levels[1..], priority)
  }

  function FindHop(hops: seq<Hop>, nexthop: Nexthop): (i: nat)
    ensures i <= |hops|
    ensures i < |hops| ==> hops[i].nexthop == nexthop
    ensures forall j :: 0 <= j < i ==> hops[j].nexthop != nexthop
  {
    if hops == [] || hops[0].nexthop == nexthop then 0 else 1 + FindHop(hops[1..], nexthop)
  }

  /** Where a new level goes: before the first of higher priority value. */
  function Position(levels: seq<Level>, priority: uint8): (i: nat)
    ensures i <= |levels|
    ensures forall j :: 0 <= j < i ==> levels[j].priority <= priority
    ensures i < |levels| ==> levels[i].priority > priority
  {
    if levels == [] || levels[0].priority > priority then 0 else 1 + Position(levels[1..], priority)
  }

  /** The entry the lookups end at. */
  function Found(levels: seq<Level>, priority: uint8, nexthop: Nexthop): Option<Hop> {
    var i := FindLevel(levels, priority);
    if i == |levels| then None
    else
      var j := FindHop(levels[i].hops, nexthop);
      if j == |levels[i].hops| then None else Some(levels[i].hops[j])
  }

  function LevelsOf(table: Table, prefix: Prefix): seq<Level> {
    if prefix in table then table[prefix] else []
  }

  function Entry(table: Table, k: Key): Option<Hop> {
    Found(LevelsOf(table, k.prefix), k.priority, k.nexthop)
  }

  // ---------------------------------------------------------------- updates

  /** A level for the priority, created in place if missing. */
  function WithLevel(levels: seq<Level>, priority: uint8): (ls: seq<Level>) {
    if FindLevel(levels, priority) < |levels| then levels
    else
      var at := Position(levels, priority);
      levels[..at] + [Level(priority, [])] + levels[at..]
  }

  function WithHop(hops: seq<Hop>, priority: uint8, nexthop: Nexthop): seq<Hop> {
    if FindHop(hops, nexthop) < |hops| then hops else hops + [Hop(nexthop, priority, false)]
  }

  /** Levels after the entry for a key has been made sure of. */
  function Ensured(levels: seq<Level>, priority: uint8, nexthop: Nexthop): seq<Level> {
    var ls := WithLevel(levels, priority);
    var i := FindLevel(ls, priority);
    if i < |ls| then ls[i := ls[i].(hops := WithHop(ls[i].hops, priority, nexthop))] else ls
  }

  /** Flag an entry as written to the kernel. */
  function Flagged(levels: seq<Level>, priority: uint8, nexthop: Nexthop): seq<Level> {
    var i := FindLevel(levels, priority);
    if i == |levels| then levels
    else
      var j := FindHop(levels[i].hops, nexthop);
      if j == |levels[i].hops| then levels
      else levels[i := levels[i].(hops := levels[i].hops[j := levels[i].hops[j].(inserted := true)])]
  }

  /** Levels without an entry; an empty level goes too. */
  function Without(levels: seq<Level>, i: nat, j: nat): seq<Level>
    requires i < |levels| && j < |levels[i].hops|
  {
    var hops := levels[i].hops[..j] + levels[i].hops[j + 1..];
    if hops == [] then levels[..i] + levels[i + 1..] else levels[i := levels[i].(hops := hops)]
  }

  function Store(table: Table, prefix: Prefix, levels: seq<Level>): Table {
    if levels == [] then table - {prefix} else table[prefix := levels]
  }

  /** A message reaches the kernel only while coupled. */
  function Send(f: Fib, m: RtMsg): Fib {
    if f.coupled then f.(log := f.log + [m]) else f
  }

  /** The message names the key asked for, whatever the entry was stored with. */
  function KrChange(f: Fib, k: Key): Fib {
    var levels := Flagged(Ensured(LevelsOf(f.table, k.prefix), k.priority, k.nexthop), k.priority, k.nexthop);
    Send(f.(table := f.table[k.prefix := levels]), if Entry(f.table, k).Some? then Change(k) else Add(k))
  }

  /** The message names what the entry was stored with. */
  function KrDelete(f: Fib, k: Key): Fib {
    var h := Entry(f.table, k);
    if h.None? || !h.value.inserted then f
    else
      var levels := LevelsOf(f.table, k.prefix);
      var i := FindLevel(levels, k.priority);
      Send(f, Delete(k.(priority := h.value.stored)))
        .(table := Store(f.table, k.prefix, Without(levels, i, FindHop(levels[i].hops, k.nexthop))))
  }

  /** A route the kernel reports on its own account. */
  function Learn(f: Fib, k: Key): Fib {
    f.(table := f.table[k.prefix := Ensured(LevelsOf(f.table, k.prefix), k.priority, k.nexthop)])
  }

  /** The written keys of a list of hops, levels, prefixes, in walking order. */
  function HopKeys(p: Prefix, hops: seq<Hop>): seq<Key> {
    if hops == [] then []
    else (if hops[0].inserted then [Key(p, hops[0].stored, hops[0].nexthop)] else []) + HopKeys(p, hops[1..])
  }

  function LevelKeys(p: Prefix, levels: seq<Level>): seq<Key> {
    if levels == [] then [] else HopKeys(p, levels[0].hops) + LevelKeys(p, levels[1..])
  }

  function TableKeys(table: Table, order: seq<Prefix>): seq<Key> {
    if order == [] then [] else LevelKeys(order[0], LevelsOf(table, order[0])) + TableKeys(table, order[1..])
  }

  function AllAdds(ks: seq<Key>): seq<RtMsg> {
    if ks == [] then [] else [Add(ks[0])] + AllAdds(ks[1..])
  }

  function AllDeletes(ks: seq<Key>): seq<RtMsg> {
    if ks == [] then [] else [Delete(ks[0])] + AllDeletes(ks[1..])
  }

  /** The order in which the tree is walked. */
  ghost predicate Covers(order: seq<Prefix>, table: Table) {
    Distinct(order) && forall p :: p in order <==> p in table
  }

  function Couple(f: Fib, order: seq<Prefix>): Fib {
    if f.coupled then f else f.(coupled := true, log := f.log + AllAdds(TableKeys(f.table, order)))
  }

  function Decouple(f: Fib, order: seq<Prefix>): Fib {
    if !f.coupled then f else f.(coupled := false, log := f.log + AllDeletes(TableKeys(f.table, order)))
  }

  // ---------------------------------------------------------------- what is in the table

  predicate Ascending(levels: seq<Level>) {
    forall i, j :: 0 <= i < j < |levels| ==> levels[i].priority < levels[j].priority
  }

  predicate HopsOk(hops: seq<Hop>) {
    hops != [] && forall i, j :: 0 <= i < j < |hops| ==> hops[i].nexthop != hops[j].nexthop
  }

  /** Priorities strictly ascending, no level empty, next hops of a level distinct. */
  predicate LevelsOk(levels: seq<Level>) {
    levels != [] && Ascending(levels) && forall i :: 0 <= i < |levels| ==> HopsOk(levels[i].hops)
  }

  predicate TableOk(table: Table) {
    forall p :: p in table ==> LevelsOk(table[p])
  }

  /** Whether an entry is a written one with this stored priority and next hop. */
  function One(h: Hop, p: uint8, n: Nexthop): nat {
    if h.stored == p && h.nexthop == n && h.inserted then 1 else 0
  }

  /** How many written entries have this stored priority and next hop. */
  function HopCopies(hops: seq<Hop>, p: uint8, n: Nexthop): nat {
    if hops == [] then 0 else One(hops[0], p, n) + HopCopies(hops[1..], p, n)
  }

  function LevelCopies(levels: seq<Level>, p: uint8, n: Nexthop): nat {
    if levels == [] then 0 else HopCopies(levels[0].hops, p, n) + LevelCopies(levels[1..], p, n)
  }

  function Copies(table: Table, k: Key): nat {
    LevelCopies(LevelsOf(table, k.prefix), k.priority, k.nexthop)
  }

  predicate Inserted(table: Table, k: Key) {
    Copies(table, k) > 0
  }

  /** eigrpd's routes in the kernel after the messages so far. */
  function Kernel(log: seq<RtMsg>): set<Key> {
    if log == [] then {}
    else
      var before, m := Kernel(log[..|log| - 1]), log[|log| - 1];
      if m.Delete? then before - {m.key} else before + {m.key}
  }

  /** Every message could succeed: additions of new routes, deletions of present
      ones. */
  predicate Sensible(log: seq<RtMsg>) {
    log != [] ==>
      var before, m := log[..|log| - 1], log[|log| - 1];
      Sensible(before) && (m.Add? ==> m.key !in Kernel(before)) && (m.Delete? ==> m.key in Kernel(before))
  }

  ghost predicate Mirrored(f: Fib) {
    if f.coupled then forall k :: k in Kernel(f.log) <==> Inserted(f.table, k)
    else Kernel(f.log) == {}
  }

  /** No route is written twice. */
  ghost predicate Once(table: Table) {
    forall k :: Copies(table, k) <= 1
  }

  ghost predicate Ok(f: Fib) {
    TableOk(f.table) && Once(f.table) && Mirrored(f) && Sensible(f.log)
  }

  // ---------------------------------------------------------------- counting

  lemma {:induction false} HopCopiesSplit(a: seq<Hop>, b: seq<Hop>, p: uint8, n: Nexthop)
    ensures HopCopies(a + b, p, n) == HopCopies(a, p, n) + HopCopies(b, p, n)
  {
    if a == [] {
      assert a + b == b;
    } else {
      assert (a + b)[1..] == a[1..] + b;
      HopCopiesSplit(a[1..], b, p, n);
    }
  }

  lemma {:induction false} LevelCopiesSplit(a: seq<Level>, b: seq<Level>, p: uint8, n: Nexthop)
    ensures LevelCopies(a + b, p, n) == LevelCopies(a, p, n) + LevelCopies(b, p, n)
  {
    hide HopCopies;
    if a == [] {
      assert a + b == b;
    } else {
      assert (a + b)[1..] == a[1..] + b;
      LevelCopiesSplit(a[1..], b, p, n);
    }
  }

  lemma HopCopiesAt(hops: seq<Hop>, j: nat, p: uint8, n: Nexthop)
    requires j < |hops|
    ensures HopCopies(hops, p, n) == HopCopies(hops[..j], p, n) + One(hops[j], p, n) + HopCopies(hops[j + 1..], p, n)
  {
    assert hops == hops[..j] + hops[j..];
    HopCopiesSplit(hops[..j], hops[j..], p, n);
  }

  lemma LevelCopiesAt(levels: seq<Level>, i: nat, p: uint8, n: Nexthop)
    requires i < |levels|
    ensures LevelCopies(levels, p, n)
         == LevelCopies(levels[..i], p, n) + HopCopies(levels[i].hops, p, n) + LevelCopies(levels[i + 1..], p, n)
  {
    hide HopCopies;
    assert levels == levels[..i] + levels[i..];
    LevelCopiesSplit(levels[..i], levels[i..], p, n);
  }

  /** Replacing one level changes the count by the difference. */
  lemma ReplaceLevel(levels: seq<Level>, i: nat, x: Level, p: uint8, n: Nexthop)
    requires i < |levels|
    ensures LevelCopies(levels[i := x], p, n) + HopCopies(levels[i].hops, p, n)
         == LevelCopies(levels, p, n) + HopCopies(x.hops, p, n)
  {
    hide HopCopies;
    var changed := levels[i := x];
    LevelCopiesAt(levels, i, p, n);
    LevelCopiesAt(changed, i, p, n);
    assert changed[..i] == levels[..i] && changed[i + 1..] == levels[i + 1..];
  }

  // ---------------------------------------------------------------- searching and changing lists

  lemma {:induction false} FindLevelExact(levels: seq<Level>, priority: uint8)
    requires priority != ANY_PRIORITY
    ensures FindLevel(levels, priority) < |levels| ==> levels[FindLevel(levels, priority)].priority == priority
    ensures forall j :: 0 <= j < FindLevel(levels, priority) ==> levels[j].priority != priority
  {
    if levels != [] && levels[0].priority != priority { FindLevelExact(levels[1..], priority); }
  }

  lemma {:induction false} SamePriorities(a: seq<Level>, b: seq<Level>, priority: uint8)
    requires |a| == |b| && forall i :: 0 <= i < |a| ==> a[i].priority == b[i].priority
    ensures FindLevel(a, priority) == FindLevel(b, priority)
  {
    if a != [] { SamePriorities(a[1..], b[1..], priority); }
  }

  lemma WithHopMeans(hops: seq<Hop>, priority: uint8, nexthop: Nexthop, p: uint8, n: Nexthop)
    requires hops == [] || HopsOk(hops)
    ensures var hs := WithHop(hops, priority, nexthop); var j := FindHop(hops, nexthop);
            && HopsOk(hs) && HopCopies(hs, p, n) == HopCopies(hops, p, n) && FindHop(hs, nexthop) == j < |hs|
            && hs[j] == if j < |hops| then hops[j] else Hop(nexthop, priority, false)
  {
    var j := FindHop(hops, nexthop);
    if j == |hops| {
      var new_ := Hop(nexthop, priority, false);
      HopCopiesSplit(hops, [new_], p, n);
      assert HopCopies([new_], p, n) == One(new_, p, n) + HopCopies([new_][1..], p, n);
      FindNew(hops, new_);
    }
  }

  lemma {:induction false} FindNew(hops: seq<Hop>, h: Hop)
    requires FindHop(hops, h.nexthop) == |hops|
    ensures FindHop(hops + [h], h.nexthop) == |hops|
  {
    if hops != [] {
      assert (hops + [h])[1..] == hops[1..] + [h];
      FindNew(hops[1..], h);
    }
  }

  /** A new level is empty, in place, and found. */
  lemma WithLevelMeans(levels: seq<Level>, priority: uint8, p: uint8, n: Nexthop)
    requires levels == [] || LevelsOk(levels)
    ensures var ls := WithLevel(levels, priority); var i := FindLevel(ls, priority);
            && Ascending(ls) && i < |ls| && LevelCopies(ls, p, n) == LevelCopies(levels, p, n)
            && (forall j :: 0 <= j < |ls| ==> (ls[j].hops == [] && j == i) || HopsOk(ls[j].hops))
            && (if FindLevel(levels, priority) < |levels| then ls == levels else ls[i] == Level(priority, []))
  {
    hide LevelCopies, HopCopies;
    if FindLevel(levels, priority) == |levels| {
      NewLevelCopies(levels, Position(levels, priority), priority, p, n);
      if levels != [] { NewLevelFound(levels, priority); }
    }
  }

  lemma NewLevelCopies(levels: seq<Level>, at: nat, priority: uint8, p: uint8, n: Nexthop)
    requires at <= |levels|
    ensures LevelCopies(levels[..at] + [Level(priority, [])] + levels[at..], p, n) == LevelCopies(levels, p, n)
  {
    hide HopCopies;
    var ls := levels[..at] + [Level(priority, [])] + levels[at..];
    assert ls[at] == Level(priority, []) && ls[..at] == levels[..at] && ls[at + 1..] == levels[at..];
    LevelCopiesAt(ls, at, p, n);
    NoCopies(p, n);
    assert levels == levels[..at] + levels[at..];
    LevelCopiesSplit(levels[..at], levels[at..], p, n);
  }

  lemma NewLevelFound(levels: seq<Level>, priority: uint8)
    requires LevelsOk(levels) && FindLevel(levels, priority) == |levels|
    ensures var at := Position(levels, priority); var ls := levels[..at] + [Level(priority, [])] + levels[at..];
            Ascending(ls) && FindLevel(ls, priority) == at
  {
    var at := Position(levels, priority);
    var ls := levels[..at] + [Level(priority, [])] + levels[at..];
    FindLevelExact(levels, priority);
    NewLevelAscends(levels, priority);
    FindLevelExact(ls, priority);
    assert ls[at].priority == priority;
    FindLevelFirst(ls, priority, at);
  }

  lemma {:induction false} FindLevelFirst(levels: seq<Level>, priority: uint8, at: nat)
    requires priority != ANY_PRIORITY && at < |levels| && levels[at].priority == priority
    requires forall j :: 0 <= j < at ==> levels[j].priority != priority
    ensures FindLevel(levels, priority) == at
  {
    if at > 0 { FindLevelFirst(levels[1..], priority, at - 1); }
  }

  lemma NewLevelAscends(levels: seq<Level>, priority: uint8)
    requires Ascending(levels) && forall i :: 0 <= i < |levels| ==> levels[i].priority != priority
    ensures var at := Position(levels, priority); Ascending(levels[..at] + [Level(priority, [])] + levels[at..])
  {
    var at := Position(levels, priority);
    var ls := levels[..at] + [Level(priority, [])] + levels[at..];
    forall i | 0 <= i < |ls| ensures ls[i] == if i < at then levels[i] else if i == at then Level(priority, []) else levels[i - 1] {}
    forall i | at <= i < |levels| ensures levels[i].priority > priority {}
    forall i, j | 0 <= i < j < |ls| ensures ls[i].priority < ls[j].priority {}
  }

  /** Making sure of an entry changes nothing that was written: it is the one that
      was there, or a new one stored as asked and not written. */
  lemma EnsuredMeans(levels: seq<Level>, priority: uint8, nexthop: Nexthop, p: uint8, n: Nexthop)
    requires levels == [] || LevelsOk(levels)
    ensures var ls := Ensured(levels, priority, nexthop); var before := Found(levels, priority, nexthop);
            && LevelsOk(ls) && LevelCopies(ls, p, n) == LevelCopies(levels, p, n)
            && Found(ls, priority, nexthop) == Some(if before.Some? then before.value else Hop(nexthop, priority, false))
  {
    hide WithLevel, LevelCopies, HopCopies, WithHop;
    var ls := WithLevel(levels, priority);
    var i := FindLevel(ls, priority);
    WithLevelMeans(levels, priority, p, n);
    var x := ls[i].(hops := WithHop(ls[i].hops, priority, nexthop));
    WithHopMeans(ls[i].hops, priority, nexthop, p, n);
    ReplaceLevel(ls, i, x, p, n);
    SamePriorities(ls, ls[i := x], priority);
  }

  lemma FlagHop(hops: seq<Hop>, j: nat, p: uint8, n: Nexthop)
    requires HopsOk(hops) && j < |hops|
    ensures var hs := hops[j := hops[j].(inserted := true)];
            && HopsOk(hs)
            && HopCopies(hs, p, n) == HopCopies(hops, p, n)
                 + if !hops[j].inserted && hops[j].stored == p && hops[j].nexthop == n then 1 else 0
  {
    var hs := hops[j := hops[j].(inserted := true)];
    HopCopiesAt(hops, j, p, n);
    HopCopiesAt(hs, j, p, n);
    assert hs[..j] == hops[..j] && hs[j + 1..] == hops[j + 1..];
  }

  /** Flagging an entry writes the key it is stored with. */
  lemma FlaggedMeans(levels: seq<Level>, priority: uint8, nexthop: Nexthop, p: uint8, n: Nexthop)
    requires LevelsOk(levels) && Found(levels, priority, nexthop).Some?
    ensures var ls := Flagged(levels, priority, nexthop); var h := Found(levels, priority, nexthop).value;
            && LevelsOk(ls)
            && LevelCopies(ls, p, n) == LevelCopies(levels, p, n) + if !h.inserted && h.stored == p && nexthop == n then 1 else 0
  {
    hide LevelCopies, HopCopies;
    var i := FindLevel(levels, priority);
    var j := FindHop(levels[i].hops, nexthop);
    var x := levels[i].(hops := levels[i].hops[j := levels[i].hops[j].(inserted := true)]);
    FlagHop(levels[i].hops, j, p, n);
    ReplaceLevel(levels, i, x, p, n);
  }

  lemma DropHop(hops: seq<Hop>, j: nat, p: uint8, n: Nexthop)
    requires HopsOk(hops) && j < |hops|
    ensures var hs := hops[..j] + hops[j + 1..];
            (hs == [] || HopsOk(hs)) && HopCopies(hs, p, n) + One(hops[j], p, n) == HopCopies(hops, p, n)
  {
    var hs := hops[..j] + hops[j + 1..];
    HopCopiesAt(hops, j, p, n);
    HopCopiesSplit(hops[..j], hops[j + 1..], p, n);
    forall i | 0 <= i < |hs| ensures hs[i] == if i < j then hops[i] else hops[i + 1] {}
  }

  /** Removing an entry takes the key it is stored with. */
  lemma WithoutMeans(levels: seq<Level>, i: nat, j: nat, p: uint8, n: Nexthop)
    requires LevelsOk(levels) && i < |levels| && j < |levels[i].hops|
    ensures var ls := Without(levels, i, j);
            (ls == [] || LevelsOk(ls)) && LevelCopies(ls, p, n) + One(levels[i].hops[j], p, n) == LevelCopies(levels, p, n)
  {
    hide LevelCopies, HopCopies, One;
    var hops := levels[i].hops[..j] + levels[i].hops[j + 1..];
    DropHop(levels[i].hops, j, p, n);
    if hops == [] {
      DropLevel(levels, i, p, n);
      NoCopies(p, n);
    } else {
      ReplaceLevel(levels, i, levels[i].(hops := hops), p, n);
    }
  }

  lemma NoCopies(p: uint8, n: Nexthop)
    ensures HopCopies([], p, n) == 0 && LevelCopies([], p, n) == 0
  {}

  lemma DropLevel(levels: seq<Level>, i: nat, p: uint8, n: Nexthop)
    requires LevelsOk(levels) && i < |levels|
    ensures var ls := levels[..i] + levels[i + 1..];
            (ls == [] || LevelsOk(ls)) && LevelCopies(ls, p, n) + HopCopies(levels[i].hops, p, n) == LevelCopies(levels, p, n)
  {
    hide HopCopies;
    var ls := levels[..i] + levels[i + 1..];
    LevelCopiesAt(levels, i, p, n);
    LevelCopiesSplit(levels[..i], levels[i + 1..], p, n);
    forall k | 0 <= k < |ls| ensures ls[k] == if k < i then levels[k] else levels[k + 1] {}
  }

  // ---------------------------------------------------------------- the steps

  lemma Logged(log: seq<RtMsg>, m: RtMsg)
    ensures Kernel(log + [m]) == if m.Delete? then Kernel(log) - {m.key} else Kernel(log) + {m.key}
    ensures Sensible(log + [m]) <==> Sensible(log) && (m.Add? ==> m.key !in Kernel(log)) && (m.Delete? ==> m.key in Kernel(log))
  {
    assert (log + [m])[..|log|] == log;
  }

  /** The key an entry for `k` is, or would be, stored with. */
  function StoredKey(table: Table, k: Key): Key {
    var h := Entry(table, k);
    if h.None? then k else k.(priority := h.value.stored)
  }

  predicate Written(table: Table, k: Key) {
    Entry(table, k).Some? && Entry(table, k).value.inserted
  }

  /** A change writes exactly the key its entry is stored with. */
  lemma ChangeTable(f: Fib, k: Key, q: Key)
    requires TableOk(f.table)
    ensures TableOk(KrChange(f, k).table)
    ensures Copies(KrChange(f, k).table, q)
         == Copies(f.table, q) + if !Written(f.table, k) && q == StoredKey(f.table, k) then 1 else 0
  {
    hide LevelCopies, LevelsOk, Ensured, Flagged, Found;
    var levels := LevelsOf(f.table, k.prefix);
    var made := Ensured(levels, k.priority, k.nexthop);
    EnsuredMeans(levels, k.priority, k.nexthop, q.priority, q.nexthop);
    FlaggedMeans(made, k.priority, k.nexthop, q.priority, q.nexthop);
  }

  lemma ChangeSends(f: Fib, k: Key)
    ensures var r := KrChange(f, k);
            r.coupled == f.coupled && r.log == if f.coupled then f.log + [if Entry(f.table, k).Some? then Change(k) else Add(k)] else f.log
  {}

  /** While coupled, a change keeps the mirror if and only if its entry is stored
      with the priority asked for, or both keys are written already. */
  lemma ChangeMirrorsExact(f: Fib, k: Key)
    requires TableOk(f.table) && Mirrored(f) && f.coupled
    ensures Mirrored(KrChange(f, k))
            <==> StoredKey(f.table, k) == k || (Inserted(f.table, k) && Inserted(f.table, StoredKey(f.table, k)))
  {
    hide Kernel, TableOk, Copies, Entry, KrChange;
    var r, key := KrChange(f, k), StoredKey(f.table, k);
    ChangeSends(f, k);
    Logged(f.log, if Entry(f.table, k).Some? then Change(k) else Add(k));
    if Written(f.table, k) { WrittenIsInserted(f.table, k); }
    forall q ensures Inserted(r.table, q) <==> Inserted(f.table, q) || q == key { ChangeTable(f, k, q); }
    assert k in Kernel(r.log) && Inserted(r.table, key);
  }

  /** An entry flagged as written makes its stored key a written one. */
  lemma WrittenIsInserted(table: Table, k: Key)
    requires Written(table, k)
    ensures Inserted(table, StoredKey(table, k))
  {
    var levels := LevelsOf(table, k.prefix);
    var i := FindLevel(levels, k.priority);
    var j := FindHop(levels[i].hops, k.nexthop);
    var p := levels[i].hops[j].stored;
    LevelCopiesAt(levels, i, p, k.nexthop);
    HopCopiesAt(levels[i].hops, j, p, k.nexthop);
  }

  /** What a change needs to keep everything: no second written copy of a key, and
      while coupled no message under another key than the stored one. */
  predicate Fits(f: Fib, k: Key) {
    && (!Written(f.table, k) ==> !Inserted(f.table, StoredKey(f.table, k)))
    && (f.coupled ==> StoredKey(f.table, k) == k || (Written(f.table, k) && Inserted(f.table, k)))
  }

  lemma ChangeExact(f: Fib, k: Key)
    requires Ok(f)
    ensures Ok(KrChange(f, k)) <==> Fits(f, k)
  {
    hide Kernel, TableOk, Copies, Entry, KrChange, Sensible;
    var r, key := KrChange(f, k), StoredKey(f.table, k);
    ChangeSends(f, k);
    Logged(f.log, if Entry(f.table, k).Some? then Change(k) else Add(k));
    ChangeTable(f, k, key);
    if Written(f.table, k) { WrittenIsInserted(f.table, k); }
    if f.coupled { ChangeMirrorsExact(f, k); }
    forall q ensures Copies(r.table, q) == Copies(f.table, q) + if !Written(f.table, k) && q == key then 1 else 0 {
      ChangeTable(f, k, q);
    }
  }

  lemma LearnKeeps(f: Fib, k: Key)
    requires Ok(f)
    ensures Ok(Learn(f, k))
    ensures forall q :: Copies(Learn(f, k).table, q) == Copies(f.table, q)
  {
    hide LevelCopies, LevelsOk, Ensured, Found;
    var levels := LevelsOf(f.table, k.prefix);
    forall q ensures Copies(Learn(f, k).table, q) == Copies(f.table, q) {
      EnsuredMeans(levels, k.priority, k.nexthop, q.priority, q.nexthop);
    }
    EnsuredMeans(levels, k.priority, k.nexthop, 0, 0);
  }

  /** A deletion takes exactly the key its entry is stored with. */
  lemma DeleteTable(f: Fib, k: Key, q: Key)
    requires TableOk(f.table)
    ensures TableOk(KrDelete(f, k).table)
    ensures Copies(KrDelete(f, k).table, q) + (if Written(f.table, k) && q == StoredKey(f.table, k) then 1 else 0)
         == Copies(f.table, q)
  {
    hide LevelCopies, LevelsOk, Without, FindLevel, FindHop;
    if Written(f.table, k) {
      var levels := LevelsOf(f.table, k.prefix);
      NoLevels(levels);
      assert LevelsOk(levels);
      var i := FindLevel(levels, k.priority);
      WithoutMeans(levels, i, FindHop(levels[i].hops, k.nexthop), q.priority, q.nexthop);
      NoCopies(q.priority, q.nexthop);
    }
  }

  lemma NoLevels(levels: seq<Level>)
    ensures levels == [] ==> forall p, n :: Found(levels, p, n) == None
  {}

  /** A deletion is sent exactly for a written entry, under its stored key. */
  lemma DeleteSends(f: Fib, k: Key)
    ensures KrDelete(f, k).log == if Written(f.table, k) && f.coupled then f.log + [Delete(StoredKey(f.table, k))] else f.log
    ensures KrDelete(f, k).coupled == f.coupled
  {}

  /** While coupled, a deletion keeps the mirror if and only if there is no second
      written copy of what it deletes. */
  lemma DeleteMirrorsExact(f: Fib, k: Key)
    requires TableOk(f.table) && Mirrored(f) && f.coupled
    ensures Mirrored(KrDelete(f, k)) <==> !Written(f.table, k) || Copies(f.table, StoredKey(f.table, k)) == 1
  {
    hide Kernel, TableOk, Copies, Entry, KrDelete;
    var r, key := KrDelete(f, k), StoredKey(f.table, k);
    DeleteSends(f, k);
    Logged(f.log, Delete(key));
    forall q ensures Copies(r.table, q) + (if Written(f.table, k) && q == key then 1 else 0) == Copies(f.table, q) {
      DeleteTable(f, k, q);
    }
    if Written(f.table, k) {
      WrittenIsInserted(f.table, k);
      assert Inserted(r.table, key) <==> Copies(f.table, key) != 1;
    }
  }

  lemma DeleteKeeps(f: Fib, k: Key)
    requires Ok(f)
    ensures Ok(KrDelete(f, k))
  {
    hide Kernel, TableOk, Copies, Entry, KrDelete, Sensible;
    var r, key := KrDelete(f, k), StoredKey(f.table, k);
    DeleteSends(f, k);
    Logged(f.log, Delete(key));
    forall q ensures Copies(r.table, q) <= Copies(f.table, q) { DeleteTable(f, k, q); }
    DeleteTable(f, k, key);
    if Written(f.table, k) {
      WrittenIsInserted(f.table, k);
      assert Copies(f.table, key) <= 1;
    }
    if f.coupled { DeleteMirrorsExact(f, k); }
  }

  // ---------------------------------------------------------------- walking the table

  function CountKey(ks: seq<Key>, k: Key): nat {
    if ks == [] then 0 else (if ks[0] == k then 1 else 0) + CountKey(ks[1..], k)
  }

  lemma {:induction false} CountConcat(a: seq<Key>, b: seq<Key>, k: Key)
    ensures CountKey(a + b, k) == CountKey(a, k) + CountKey(b, k)
  {
    if a == [] {
      assert a + b == b;
    } else {
      assert (a + b)[1..] == a[1..] + b;
      CountConcat(a[1..], b, k);
    }
  }

  lemma {:induction false} CountMember(ks: seq<Key>, k: Key)
    ensures CountKey(ks, k) > 0 <==> k in ks
  {
    if ks != [] { CountMember(ks[1..], k); }
  }

  lemma {:induction false} CountedOnce(ks: seq<Key>)
    requires forall k :: CountKey(ks, k) <= 1
    ensures Distinct(ks)
  {
    if ks != [] {
      forall k ensures CountKey(ks[1..], k) <= 1 { assert CountKey(ks, k) <= 1; }
      CountedOnce(ks[1..]);
      assert CountKey(ks, ks[0]) <= 1;
      CountMember(ks[1..], ks[0]);
      assert ks == [ks[0]] + ks[1..];
    }
  }

  lemma {:induction false} HopKeysCount(p: Prefix, hops: seq<Hop>, k: Key)
    ensures CountKey(HopKeys(p, hops), k) == if k.prefix == p then HopCopies(hops, k.priority, k.nexthop) else 0
  {
    if hops != [] {
      var first := if hops[0].inserted then [Key(p, hops[0].stored, hops[0].nexthop)] else [];
      HopKeysCount(p, hops[1..], k);
      CountConcat(first, HopKeys(p, hops[1..]), k);
      assert CountKey(first, k) == if k.prefix == p then One(hops[0], k.priority, k.nexthop) else 0 by {
        if hops[0].inserted { assert first[1..] == []; }
      }
    }
  }

  lemma {:induction false} LevelKeysCount(p: Prefix, levels: seq<Level>, k: Key)
    ensures CountKey(LevelKeys(p, levels), k) == if k.prefix == p then LevelCopies(levels, k.priority, k.nexthop) else 0
  {
    hide HopCopies, HopKeys;
    if levels != [] {
      HopKeysCount(p, levels[0].hops, k);
      LevelKeysCount(p, levels[1..], k);
      CountConcat(HopKeys(p, levels[0].hops), LevelKeys(p, levels[1..]), k);
    }
  }

  /** The walk meets every written entry of the walked prefixes. */
  lemma {:induction false} TableKeysCount(table: Table, order: seq<Prefix>, k: Key)
    requires Distinct(order)
    ensures CountKey(TableKeys(table, order), k) == if k.prefix in order then Copies(table, k) else 0
  {
    hide LevelCopies, LevelKeys;
    if order != [] {
      LevelKeysCount(order[0], LevelsOf(table, order[0]), k);
      TableKeysCount(table, order[1..], k);
      assert order[0] !in order[1..];
      CountConcat(LevelKeys(order[0], LevelsOf(table, order[0])), TableKeys(table, order[1..]), k);
    }
  }

  /** So it meets exactly the written keys, each once. */
  lemma WalkExact(table: Table, order: seq<Prefix>)
    requires Once(table) && Covers(order, table)
    ensures Distinct(TableKeys(table, order)) && forall k :: k in TableKeys(table, order) <==> Inserted(table, k)
  {
    hide TableKeys, Copies;
    forall k ensures CountKey(TableKeys(table, order), k) == Copies(table, k) {
      TableKeysCount(table, order, k);
      NotThere(table, k);
    }
    CountedOnce(TableKeys(table, order));
    forall k ensures k in TableKeys(table, order) <==> Inserted(table, k) { CountMember(TableKeys(table, order), k); }
  }

  lemma NotThere(table: Table, k: Key)
    ensures k.prefix !in table ==> Copies(table, k) == 0
  {}

  lemma {:induction false} LogAdds(log: seq<RtMsg>, ks: seq<Key>)
    requires Sensible(log) && Distinct(ks) && forall k :: k in ks ==> k !in Kernel(log)
    ensures Sensible(log + AllAdds(ks)) && forall k :: k in Kernel(log + AllAdds(ks)) <==> k in Kernel(log) || k in ks
    decreases |ks|
  {
    hide Sensible, Kernel;
    if ks == [] {
      assert log + AllAdds(ks) == log;
    } else {
      Logged(log, Add(ks[0]));
      assert ks[0] !in ks[1..];
      LogAdds(log + [Add(ks[0])], ks[1..]);
      assert log + AllAdds(ks) == log + [Add(ks[0])] + AllAdds(ks[1..]);
    }
  }

  lemma {:induction false} LogDeletes(log: seq<RtMsg>, ks: seq<Key>)
    requires Sensible(log) && Distinct(ks) && forall k :: k in ks ==> k in Kernel(log)
    ensures Sensible(log + AllDeletes(ks)) && forall k :: k in Kernel(log + AllDeletes(ks)) <==> k in Kernel(log) && k !in ks
    decreases |ks|
  {
    hide Sensible, Kernel;
    if ks == [] {
      assert log + AllDeletes(ks) == log;
    } else {
      Logged(log, Delete(ks[0]));
      assert ks[0] !in ks[1..];
      LogDeletes(log + [Delete(ks[0])], ks[1..]);
      assert log + AllDeletes(ks) == log + [Delete(ks[0])] + AllDeletes(ks[1..]);
    }
  }

  lemma CoupleKeeps(f: Fib, order: seq<Prefix>)
    requires Ok(f) && Covers(order, f.table)
    ensures Ok(Couple(f, order))
  {
    hide Sensible, Kernel, TableKeys, Copies;
    if !f.coupled {
      WalkExact(f.table, order);
      LogAdds(f.log, TableKeys(f.table, order));
    }
  }

  lemma DecoupleKeeps(f: Fib, order: seq<Prefix>)
    requires Ok(f) && Covers(order, f.table)
    ensures Ok(Decouple(f, order))
  {
    hide Sensible, Kernel, TableKeys, Copies;
    if f.coupled {
      WalkExact(f.table, order);
      LogDeletes(f.log, TableKeys(f.table, order));
    }
  }

  // ---------------------------------------------------------------- without the wildcard

  predicate PlainHops(hops: seq<Hop>, priority: uint8) {
    forall j :: 0 <= j < |hops| ==> hops[j].stored == priority
  }

  /** Every entry is stored with the priority of its level, and that is no
      wildcard. */
  predicate PlainLevels(levels: seq<Level>) {
    forall i :: 0 <= i < |levels| ==> levels[i].priority != ANY_PRIORITY && PlainHops(levels[i].hops, levels[i].priority)
  }

  predicate Plain(table: Table) {
    forall p :: p in table ==> PlainLevels(table[p])
  }

  lemma {:induction false} OtherStored(hops: seq<Hop>, p: uint8, n: Nexthop)
    requires forall j :: 0 <= j < |hops| ==> hops[j].stored != p || hops[j].nexthop != n
    ensures HopCopies(hops, p, n) == 0
  {
    if hops != [] { OtherStored(hops[1..], p, n); }
  }

  lemma {:induction false} OtherLevels(levels: seq<Level>, p: uint8, n: Nexthop)
    requires PlainLevels(levels) && forall i :: 0 <= i < |levels| ==> levels[i].priority != p
    ensures LevelCopies(levels, p, n) == 0
  {
    hide HopCopies;
    if levels != [] {
      assert PlainHops(levels[0].hops, levels[0].priority);
      OtherStored(levels[0].hops, p, n);
      OtherLevels(levels[1..], p, n);
    }
  }

  lemma PlainHop(hops: seq<Hop>, p: uint8, n: Nexthop)
    requires HopsOk(hops) && PlainHops(hops, p)
    ensures var j := FindHop(hops, n); HopCopies(hops, p, n) == if j < |hops| && hops[j].inserted then 1 else 0
  {
    var j := FindHop(hops, n);
    if j < |hops| {
      HopCopiesAt(hops, j, p, n);
      OtherStored(hops[..j], p, n);
      OtherStored(hops[j + 1..], p, n);
    } else {
      OtherStored(hops, p, n);
    }
  }

  /** In a plain table the lookups find whatever is written. */
  lemma PlainCopies(levels: seq<Level>, p: uint8, n: Nexthop)
    requires LevelsOk(levels) && PlainLevels(levels)
    ensures p == ANY_PRIORITY ==> LevelCopies(levels, p, n) == 0
    ensures p != ANY_PRIORITY ==>
              var h := Found(levels, p, n); LevelCopies(levels, p, n) == if h.Some? && h.value.inserted then 1 else 0
  {
    hide HopCopies, LevelCopies, PlainHops;
    if p == ANY_PRIORITY {
      OtherLevels(levels, p, n);
    } else {
      FindLevelExact(levels, p);
      var i := FindLevel(levels, p);
      if i == |levels| {
        OtherLevels(levels, p, n);
      } else {
        LevelCopiesAt(levels, i, p, n);
        OtherLevels(levels[..i], p, n);
        OtherLevels(levels[i + 1..], p, n);
        PlainHop(levels[i].hops, p, n);
      }
    }
  }

  lemma PlainStored(levels: seq<Level>, p: uint8, n: Nexthop)
    requires PlainLevels(levels) && Found(levels, p, n).Some?
    ensures Found(levels, p, n).value.stored != ANY_PRIORITY
    ensures p != ANY_PRIORITY ==> Found(levels, p, n).value.stored == p
  {
    var i := FindLevel(levels, p);
    assert PlainHops(levels[i].hops, levels[i].priority);
    if p != ANY_PRIORITY { FindLevelExact(levels, p); }
  }

  lemma PlainTable(table: Table, k: Key)
    requires TableOk(table) && Plain(table)
    ensures k.priority == ANY_PRIORITY ==> !Inserted(table, k)
    ensures k.priority != ANY_PRIORITY ==> StoredKey(table, k) == k && (Inserted(table, k) <==> Written(table, k))
    ensures k.priority == ANY_PRIORITY && Entry(table, k).Some? ==> StoredKey(table, k) != k
  {
    hide LevelCopies, Found, LevelsOk, PlainLevels;
    var levels := LevelsOf(table, k.prefix);
    if k.prefix in table {
      PlainCopies(levels, k.priority, k.nexthop);
      if Found(levels, k.priority, k.nexthop).Some? { PlainStored(levels, k.priority, k.nexthop); }
    } else {
      NoCopies(k.priority, k.nexthop);
      NoLevels(levels);
    }
  }

  /** In a plain table every change with a real priority fits; one with the
      wildcard breaks the mirror if and only if the next hop is already on the
      first level. */
  lemma WildcardExact(f: Fib, k: Key)
    requires Ok(f) && Plain(f.table) && f.coupled
    ensures k.priority != ANY_PRIORITY ==> Fits(f, k)
    ensures k.priority == ANY_PRIORITY ==> (Mirrored(KrChange(f, k)) <==> Entry(f.table, k).None?)
  {
    hide Ok, Entry, Copies, KrChange, Mirrored;
    assert TableOk(f.table) && Mirrored(f) by { OkParts(f); }
    PlainTable(f.table, k);
    ChangeMirrorsExact(f, k);
  }

  lemma OkParts(f: Fib)
    requires Ok(f)
    ensures TableOk(f.table) && Mirrored(f)
  {}

  /** A route under priority 10 and then the same one under the wildcard: the
      kernel is told of a route the table does not have. Under priority 0, an
      ordinary one, nothing goes wrong. */
  lemma WildcardBreaks(p: Prefix)
    ensures var f := KrChange(Fib(map[], true, []), Key(p, 10, 7));
            Ok(f) && !Mirrored(KrChange(f, Key(p, 64, 7))) && Mirrored(KrChange(f, Key(p, 0, 7)))
  {
    hide KrChange, Mirrored;
    var start := Fib(map[], true, []);
    var f := KrChange(start, Key(p, 10, 7));
    FreshOk(start);
    RealFits(start, Key(p, 10, 7));
    ChangeExact(start, Key(p, 10, 7));
    ChangeSends(start, Key(p, 10, 7));
    FirstWritten(p);
    WildcardExact(f, Key(p, 64, 7));
    WildcardExact(f, Key(p, 0, 7));
    ChangeExact(f, Key(p, 0, 7));
    OkParts(KrChange(f, Key(p, 0, 7)));
  }

  lemma FirstWritten(p: Prefix)
    ensures KrChange(Fib(map[], true, []), Key(p, 10, 7)).table == map[p := [Level(10, [Hop(7, 10, true)])]]
  {
    hide Ensured, Flagged;
    FirstEnsured();
    FirstFlagged();
    var table: Table := map[];
    assert LevelsOf(table, p) == [];
  }

  lemma FirstEnsured()
    ensures Ensured([], 10, 7) == [Level(10, [Hop(7, 10, false)])]
  {
    var none: seq<Level>, empty := [], [Level(10, [])];
    assert WithLevel(none, 10) == none[..0] + empty + none[0..] == empty;
    assert FindLevel(empty, 10) == 0 && empty[0].hops == [];
    assert WithHop([], 10, 7) == [] + [Hop(7, 10, false)] == [Hop(7, 10, false)];
  }

  lemma FirstFlagged()
    ensures Flagged([Level(10, [Hop(7, 10, false)])], 10, 7) == [Level(10, [Hop(7, 10, true)])]
  {
    var levels := [Level(10, [Hop(7, 10, false)])];
    assert FindLevel(levels, 10) == 0 && FindHop(levels[0].hops, 7) == 0;
    assert levels[0].hops[0 := Hop(7, 10, true)] == [Hop(7, 10, true)];
    assert levels[0 := Level(10, [Hop(7, 10, true)])] == [Level(10, [Hop(7, 10, true)])];
  }

  lemma PlainWithHop(hops: seq<Hop>, priority: uint8, nexthop: Nexthop)
    requires PlainHops(hops, priority)
    ensures PlainHops(WithHop(hops, priority, nexthop), priority)
  {}

  lemma EnsuredPlain(levels: seq<Level>, priority: uint8, nexthop: Nexthop)
    requires PlainLevels(levels) && priority != ANY_PRIORITY
    ensures PlainLevels(Ensured(levels, priority, nexthop))
  {
    hide PlainHops, WithHop;
    var ls := WithLevel(levels, priority);
    NoHops(priority);
    assert PlainLevels(ls);
    FindLevelExact(ls, priority);
    var i := FindLevel(ls, priority);
    if i < |ls| { PlainWithHop(ls[i].hops, priority, nexthop); }
  }

  lemma NoHops(priority: uint8)
    ensures PlainHops([], priority)
  {}

  lemma FlaggedPlain(levels: seq<Level>, priority: uint8, nexthop: Nexthop)
    requires PlainLevels(levels)
    ensures PlainLevels(Flagged(levels, priority, nexthop))
  {
    var i := FindLevel(levels, priority);
    if i < |levels| { assert PlainHops(levels[i].hops, levels[i].priority); }
  }

  lemma WithoutPlain(levels: seq<Level>, i: nat, j: nat)
    requires PlainLevels(levels) && i < |levels| && j < |levels[i].hops|
    ensures PlainLevels(Without(levels, i, j))
  {
    assert PlainHops(levels[i].hops, levels[i].priority);
    var hops := levels[i].hops[..j] + levels[i].hops[j + 1..];
    assert PlainHops(hops, levels[i].priority);
  }

  // ---------------------------------------------------------------- runs

  datatype Event =
    | EvChange(key: Key)
    | EvDelete(key: Key)
    | EvLearn(key: Key)
    | EvCouple(order: seq<Prefix>)
    | EvDecouple(order: seq<Prefix>)

  /** Changes that fit, whatever their priority. */
  ghost predicate Enabled(f: Fib, e: Event) {
    match e
    case EvChange(k) => Fits(f, k)
    case EvDelete(k) => true
    case EvLearn(k) => Entry(f.table, k).None?
    case EvCouple(order) => Covers(order, f.table)
    case EvDecouple(order) => Covers(order, f.table)
  }

  function Next(f: Fib, e: Event): Fib {
    match e
    case EvChange(k) => KrChange(f, k)
    case EvDelete(k) => KrDelete(f, k)
    case EvLearn(k) => Learn(f, k)
    case EvCouple(order) => Couple(f, order)
    case EvDecouple(order) => Decouple(f, order)
  }

  lemma NextKeeps(f: Fib, e: Event)
    requires Ok(f) && Enabled(f, e)
    ensures Ok(Next(f, e))
  {
    hide Ok, Fits;
    match e
    case EvChange(k) => ChangeExact(f, k);
    case EvDelete(k) => DeleteKeeps(f, k);
    case EvLearn(k) => LearnKeeps(f, k);
    case EvCouple(order) => CoupleKeeps(f, order);
    case EvDecouple(order) => DecoupleKeeps(f, order);
  }

  ghost predicate Run(states: seq<Fib>, events: seq<Event>) {
    && |states| == |events| + 1 && states[0].table == map[] && states[0].log == []
    && forall i :: 0 <= i < |events| ==> Enabled(states[i], events[i]) && states[i + 1] == Next(states[i], events[i])
  }

  /** In every run whose changes fit, wildcards or not, coupled or not at the
      start: the table is well formed, every message can succeed, and the kernel
      holds exactly the written routes while coupled and none while decoupled. */
  lemma {:induction false} RunOk(states: seq<Fib>, events: seq<Event>, k: nat)
    requires Run(states, events) && k < |states|
    ensures Ok(states[k])
  {
    hide Next, Enabled;
    if k > 0 {
      RunOk(states, events, k - 1);
      NextKeeps(states[k - 1], events[k - 1]);
    } else {
      assert forall q :: Copies(states[0].table, q) == 0;
    }
  }

  /** No event uses the wildcard. */
  predicate Real(e: Event) {
    e.EvChange? || e.EvDelete? || e.EvLearn? ==> e.key.priority != ANY_PRIORITY
  }

  /** Routes learnt are new and walks complete; changes are not restricted. */
  ghost predicate Free(f: Fib, e: Event) {
    e.EvChange? || Enabled(f, e)
  }

  lemma NextPlain(f: Fib, e: Event)
    requires Plain(f.table) && Real(e)
    ensures Plain(Next(f, e).table)
  {
    hide PlainLevels, Ensured, Flagged, Without;
    if e.EvChange? || e.EvLearn? {
      var levels := LevelsOf(f.table, e.key.prefix);
      if e.key.prefix !in f.table { assert PlainLevels(levels) by { NoPlain(); } }
      EnsuredPlain(levels, e.key.priority, e.key.nexthop);
      FlaggedPlain(Ensured(levels, e.key.priority, e.key.nexthop), e.key.priority, e.key.nexthop);
    } else if e.EvDelete? && Written(f.table, e.key) {
      var levels := LevelsOf(f.table, e.key.prefix);
      NoLevels(levels);
      var i := FindLevel(levels, e.key.priority);
      WithoutPlain(levels, i, FindHop(levels[i].hops, e.key.nexthop));
    }
  }

  lemma NoPlain()
    ensures PlainLevels([])
  {}

  ghost predicate RealRun(states: seq<Fib>, events: seq<Event>) {
    && |states| == |events| + 1 && states[0].table == map[] && states[0].log == []
    && forall i :: 0 <= i < |events| ==> Real(events[i]) && Free(states[i], events[i]) && states[i + 1] == Next(states[i], events[i])
  }

  /** In every run with real priorities all changes fit, so the same holds without
      any further condition. */
  lemma {:induction false} RealRunOk(states: seq<Fib>, events: seq<Event>, k: nat)
    requires RealRun(states, events) && k < |states|
    ensures Ok(states[k]) && Plain(states[k].table)
  {
    hide Next, Ok, Plain;
    if k > 0 {
      RealRunOk(states, events, k - 1);
      var f, e := states[k - 1], events[k - 1];
      NextPlain(f, e);
      if e.EvChange? { RealFits(f, e.key); }
      NextKeeps(f, e);
    } else {
      FreshOk(states[0]);
    }
  }

  lemma FreshOk(f: Fib)
    requires f.table == map[] && f.log == []
    ensures Ok(f) && Plain(f.table)
  {
    assert forall q :: Copies(f.table, q) == 0;
  }

  lemma RealFits(f: Fib, k: Key)
    requires Ok(f) && Plain(f.table) && k.priority != ANY_PRIORITY
    ensures Fits(f, k)
  {
    hide Entry, Copies;
    PlainTable(f.table, k);
  }
}
