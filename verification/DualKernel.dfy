/** Whole runs of the route decision engine together with the kernel route table
    that its messages fill. */
module DualKernel {
  import opened Prelude
  import opened DualTypes
  import opened DualInvariant
  import opened DualTopology
  import opened DualFib
  import K = KernelRoutes

  // ---------------------------------------------------------------- the table follows the messages

  /** What the engine asks of the kernel table. */
  function Requests(c: Priorities, log: seq<Logged>): seq<K.Event> {
    if log == [] then []
    else
      var last := log[|log| - 1];
      Requests(c, log[..|log| - 1])
      + match last.effect
        case KernelChange(path) => [K.EvChange(KeyOf(c, last.prefix, path))]
        case KernelDelete(path) => [K.EvDelete(KeyOf(c, last.prefix, path))]
        case _ => []
  }

  /** The changes and deletions among the events of the table, which also learns
      routes of others and is coupled and decoupled. */
  function Asked(events: seq<K.Event>): seq<K.Event> {
    if events == [] then []
    else
      var last := events[|events| - 1];
      Asked(events[..|events| - 1]) + if last.EvChange? || last.EvDelete? then [last] else []
  }

  function Held(asked: seq<K.Event>): set<K.Key> {
    if asked == [] then {}
    else
      var before, last := Held(asked[..|asked| - 1]), asked[|asked| - 1];
      if last.EvChange? then before + {last.key} else if last.EvDelete? then before - {last.key} else before
  }

  lemma HeldMore(asked: seq<K.Event>, e: K.Event)
    ensures Held(asked + [e]) ==
            if e.EvChange? then Held(asked) + {e.key} else if e.EvDelete? then Held(asked) - {e.key} else Held(asked)
  {
    assert (asked + [e])[..|asked|] == asked;
  }

  /** One event of the table on the keys it has written. */
  lemma TableStep(f: K.Fib, e: K.Event, q: K.Key)
    requires K.Ok(f) && K.Plain(f.table) && K.Real(e) && K.Free(f, e)
    ensures K.Inserted(K.Next(f, e).table, q) <==>
            if e.EvChange? then K.Inserted(f.table, q) || q == e.key
            else if e.EvDelete? then K.Inserted(f.table, q) && q != e.key
            else K.Inserted(f.table, q)
  {
    hide K.Copies, K.TableOk, K.Plain, K.Entry, K.KrChange, K.KrDelete, K.Learn, K.Mirrored, K.Sensible;
    match e
    case EvChange(k) =>
      K.PlainTable(f.table, k);
      K.ChangeTable(f, k, q);
    case EvDelete(k) =>
      K.PlainTable(f.table, k);
      K.DeleteTable(f, k, q);
      assert K.Copies(f.table, q) <= 1;
    case EvLearn(k) => K.LearnKeeps(f, k);
    case _ =>
  }

  /** In every run with real priorities the table has written exactly what the
      changes and deletions leave, whatever happens in between. */
  lemma {:induction false} TableFollows(states: seq<K.Fib>, events: seq<K.Event>, n: nat, q: K.Key)
    requires K.RealRun(states, events) && n < |states|
    ensures K.Inserted(states[n].table, q) <==> q in Held(Asked(events[..n]))
  {
    hide K.Next, K.Copies, K.Free, K.Ok, K.Plain, Held;
    if n == 0 {
      assert K.Copies(states[0].table, q) == 0 && Held([]) == {} by { NothingHeld(states[0], q); }
    } else {
      TableFollows(states, events, n - 1, q);
      K.RealRunOk(states, events, n - 1);
      TableStep(states[n - 1], events[n - 1], q);
      assert events[..n][..n - 1] == events[..n - 1];
      HeldMore(Asked(events[..n - 1]), events[n - 1]);
      assert Asked(events[..n - 1]) + [] == Asked(events[..n - 1]);
    }
  }

  lemma NothingHeld(f: K.Fib, q: K.Key)
    requires f.table == map[]
    ensures K.Copies(f.table, q) == 0 && Held([]) == {}
  {}

  /** Per prefix, the requests say what the trace of the prefix says. */
  lemma {:induction false} RequestsByPrefix(c: Priorities, log: seq<Logged>, q: K.Key)
    ensures q in Held(Requests(c, log)) <==> q in KeysAfter(c, q.prefix, {}, Traced(log, q.prefix))
    decreases |log|
  {
    hide Held;
    if log == [] {
      assert Held([]) == {} by { NothingHeld(K.Fib(map[], true, []), q); }
    } else {
      var init, last := log[..|log| - 1], log[|log| - 1];
      RequestsByPrefix(c, init, q);
      MessageKeys(c, q.prefix, {}, Traced(init, q.prefix), if last.prefix == q.prefix then [last.effect] else []);
      match last.effect
      case KernelChange(path) => HeldMore(Requests(c, init), K.EvChange(KeyOf(c, last.prefix, path)));
      case KernelDelete(path) => HeldMore(Requests(c, init), K.EvDelete(KeyOf(c, last.prefix, path)));
      case _ => assert Requests(c, init) + [] == Requests(c, init);
    }
  }

  // ---------------------------------------------------------------- both together

  /** The table holds the engine's requests so far, in any company. */
  ghost predicate Fed(c: Priorities, s: Rde, states: seq<K.Fib>, events: seq<K.Event>) {
    |states| == |events| + 1 && K.RealRun(states, events) && Asked(events) == Requests(c, s.log)
  }

  /** The written keys of `p` are those of its installed routes. */
  ghost predicate Agrees(c: Priorities, s: Rde, f: K.Fib, p: Prefix) {
    forall q: K.Key :: q.prefix == p ==>
      (K.Inserted(f.table, q) <==> q in KeysOf(c, p, InstalledIn(Lookup(s.topology, p))))
  }

  /** Configured priorities are never the wildcard, so a coupled table can serve
      the engine alone. */
  lemma FedAlone(c: Priorities, s: Rde) returns (states: seq<K.Fib>, events: seq<K.Event>)
    requires PrioritiesOk(c)
    ensures Fed(c, s, states, events) && states[|events|].coupled
  {
    hide K.KrChange, K.KrDelete, Requests, Asked;
    events := Requests(c, s.log);
    RequestsReal(c, s.log);
    assert forall i :: 0 <= i < |events| ==> RealRequest(events[i]);
    states := [K.Fib(map[], true, [])];
    while |states| <= |events|
      invariant 1 <= |states| <= |events| + 1 && states[0] == K.Fib(map[], true, []) && states[|states| - 1].coupled
      invariant forall i :: 0 <= i < |states| - 1 ==> states[i + 1] == K.Next(states[i], events[i])
    {
      var f, e := states[|states| - 1], events[|states| - 1];
      StaysCoupled(f, e);
      states := states + [K.Next(f, e)];
    }
  }

  lemma StaysCoupled(f: K.Fib, e: K.Event)
    requires e.EvChange? || e.EvDelete?
    ensures K.Next(f, e).coupled == f.coupled
  {}

  predicate RealRequest(e: K.Event) {
    K.Real(e) && (e.EvChange? || e.EvDelete?)
  }

  lemma {:induction false} RequestsReal(c: Priorities, log: seq<Logged>)
    requires PrioritiesOk(c)
    ensures Asked(Requests(c, log)) == Requests(c, log)
    ensures forall i :: 0 <= i < |Requests(c, log)| ==> RealRequest(Requests(c, log)[i])
    decreases |log|
  {
    hide Asked, RealRequest, KeyOf;
    if log == [] {
      NothingAsked();
    } else {
      var init, last := Requests(c, log[..|log| - 1]), log[|log| - 1];
      RequestsReal(c, log[..|log| - 1]);
      match last.effect
      case KernelChange(path) =>
        RealKey(c, last.prefix, path);
        AskedMore(init, K.EvChange(KeyOf(c, last.prefix, path)));
      case KernelDelete(path) =>
        RealKey(c, last.prefix, path);
        AskedMore(init, K.EvDelete(KeyOf(c, last.prefix, path)));
      case _ => assert init + [] == init;
    }
  }

  lemma NothingAsked()
    ensures Asked([]) == []
  {}

  lemma RealKey(c: Priorities, p: Prefix, path: Path)
    requires PrioritiesOk(c)
    ensures RealRequest(K.EvChange(KeyOf(c, p, path))) && RealRequest(K.EvDelete(KeyOf(c, p, path)))
  {}

  lemma AskedMore(events: seq<K.Event>, e: K.Event)
    requires Asked(events) == events && RealRequest(e)
    ensures Asked(events + [e]) == events + [e]
  {
    assert (events + [e])[..|events|] == events;
  }

  lemma FedKeys(c: Priorities, s: Rde, states: seq<K.Fib>, events: seq<K.Event>, q: K.Key)
    requires Fed(c, s, states, events)
    ensures K.Inserted(states[|events|].table, q) <==> q in KeysAfter(c, q.prefix, {}, Traced(s.log, q.prefix))
  {
    hide K.RealRun, K.Copies, Held, Requests, Asked, Traced, KeysAfter;
    assert events[..|events|] == events;
    TableFollows(states, events, |events|, q);
    RequestsByPrefix(c, s.log, q);
  }

  lemma KeysNamePrefix(c: Priorities, p: Prefix, paths: set<Path>)
    ensures forall q :: q in KeysOf(c, p, paths) ==> q.prefix == p
  {}

  /** In every run of the engine and every run of the table that serves it: each
      written key belongs to an installed route, and the keys of a prefix are
      those of its installed routes if and only if its messages leave them. */
  lemma KernelExact(c: Priorities, rdes: seq<Rde>, inputs: seq<Event>, n: nat, states: seq<K.Fib>, events: seq<K.Event>, p: Prefix)
    requires Run(rdes, inputs) && n < |rdes| && Fed(c, rdes[n], states, events)
    ensures var f, s := states[|events|], rdes[n];
            && (forall q: K.Key :: q.prefix == p && K.Inserted(f.table, q) ==>
                  q in KeysOf(c, p, InstalledIn(Lookup(s.topology, p))))
            && (Agrees(c, s, f, p) <==> MirroredAfter(c, p, Traced(s.log, p)))
            && (f.coupled ==> forall q :: q in K.Kernel(f.log) <==> K.Inserted(f.table, q))
  {
    hide K.RealRun, K.Copies, K.Kernel, Traced, KeysAfter, KeysOf, Run, Requests, Asked;
    var f, s := states[|events|], rdes[n];
    RunKeepsInv(rdes, inputs, n);
    NoStaleKey(c, p, {}, {}, Traced(s.log, p));
    assert KernelAfter({}, Traced(s.log, p)) == InstalledIn(Lookup(s.topology, p));
    KeysNamePrefix(c, p, InstalledIn(Lookup(s.topology, p)));
    forall q: K.Key ensures K.Inserted(f.table, q) <==> q in KeysAfter(c, q.prefix, {}, Traced(s.log, q.prefix)) {
      FedKeys(c, s, states, events, q);
    }
    K.RealRunOk(states, events, |events|);
    K.OkParts(f);
  }
}
