/** The route decision engine as it runs: a table of prefixes updated in place,
    the neighbours' lists of outstanding replies, and the messages sent.  Each
    handler is proved to take exactly the step the run theorems speak about. */
module DualEngine {
  import opened Prelude
  import opened DualTypes
  import opened DualPrefix
  import N = DualNode
  import T = DualTopology

  class Engine {
    var env: Env
    var topology: map<Prefix, RtNode>
    var owing: map<NbrId, seq<Prefix>>
    var log: seq<T.Logged>

    ghost function Nodes(): set<RtNode>
      reads this`topology
    {
      set p | p in topology :: topology[p]
    }

    /** No two prefixes share a record. */
    ghost predicate Valid()
      reads this`topology
    {
      forall p, q :: p in topology && q in topology && p != q ==> topology[p] != topology[q]
    }

    ghost function Table(): map<Prefix, Node>
      reads this`topology, Nodes()
    {
      map p | p in topology :: topology[p].View()
    }

    ghost function View(): T.Rde
      reads this, Nodes()
    {
      T.Rde(env, Table(), owing, log)
    }

    constructor (env: Env)
      ensures Valid() && fresh(Nodes())
      ensures View() == T.Rde(env, map[], map n | n in env.nbrs :: [], [])
    {
      this.env := env;
      topology, owing, log := map[], map n | n in env.nbrs :: [], [];
    }

    /** The effects of a step on `p` reach the neighbours' lists and the log. */
    method Publish(p: Prefix, fx: seq<Effect>)
      modifies this`owing, this`log
      ensures owing == T.NbrSide(old(owing), p, fx) && log == old(log) + T.Tagged(p, fx)
    {
      for i := 0 to |fx|
        invariant owing == T.NbrSide(old(owing), p, fx[..i]) && log == old(log) + T.Tagged(p, fx[..i])
      {
        assert fx[..i + 1][..|fx[..i + 1]| - 1] == fx[..i];
        assert T.Tagged(p, fx[..i + 1]) == T.Tagged(p, fx[..i]) + [T.Logged(p, fx[i])];
        match fx[i] {
          case Owe(n) => if n in owing { owing := owing[n := owing[n] + [p]]; }
          case Settle(n) => if n in owing { owing := owing[n := RemoveFirst(owing[n], p)]; }
          case _ =>
        }
        log := log + [T.Logged(p, fx[i])];
      }
      assert fx[..|fx|] == fx;
    }

    /** The table is still `before`, except perhaps for `p`. */
    ghost predicate AgreesElsewhere(before: T.Rde, p: Prefix)
      reads this, Nodes()
    {
      && env == before.env && owing == before.owing && log == before.log && topology.Keys == before.topology.Keys
      && forall q :: q in topology && q != p ==> topology[q].View() == before.topology[q]
    }

    /** A record that has been worked on takes its place in the table, or leaves it. */
    method Conclude(p: Prefix, node: RtNode, alive: bool, fx: seq<Effect>, ghost before: T.Rde)
      requires Valid() && AgreesElsewhere(before, p)
      requires (p in topology ==> topology[p] == node) && (p !in topology ==> node !in Nodes())
      modifies this
      ensures Valid() && Nodes() <= old(Nodes()) + {node}
      ensures View() == T.Commit(before, p, Outcome(if alive then Some(node.View()) else None, fx))
    {
      hide T.NbrSide, T.Tagged;
      if alive { topology := topology[p := node]; } else { topology := topology - {p}; }
      Publish(p, fx);
      assert Table() == if alive then before.topology[p := node.View()] else before.topology - {p};
    }

    /** The record for `p`, created when there is none. */
    method Obtain(p: Prefix) returns (node: RtNode)
      requires Valid()
      ensures p in topology ==> node == topology[p]
      ensures p !in topology ==> fresh(node) && node.View() == NEW_NODE
    {
      if p in topology { node := topology[p]; } else { node := new RtNode(); }
    }

    method RecvUpdate(n: NbrId, p: Prefix, advert: Advert)
      requires Valid() && T.Enabled(View(), T.Update(n, p, advert))
      modifies this, Nodes()
      ensures Valid() && fresh(Nodes() - old(Nodes()))
      ensures View() == T.Next(old(View()), T.Update(n, p, advert))
    {
      hide N.UpdateKnown, Interpret, T.Commit;
      ghost var before := View();
      var info := Interpret(env, n, advert);
      if p !in topology && info.None? {
        CommitNothing(before, p);
        return;
      }
      var node := Obtain(p);
      var alive, fx := node.CheckUpdate(env, n, info);
      Conclude(p, node, alive, fx, before);
    }

    method RecvQuery(n: NbrId, p: Prefix, advert: Advert, sia: bool)
      requires Valid() && T.Enabled(View(), T.Query(n, p, advert, sia))
      modifies this, Nodes()
      ensures Valid() && fresh(Nodes() - old(Nodes()))
      ensures View() == T.Next(old(View()), T.Query(n, p, advert, sia))
    {
      hide N.Absorb, N.ServeQuery, N.CloseIfQuiet, N.AnsweredAtOnce, Interpret, T.Commit;
      ghost var before := View();
      var info := Interpret(env, n, advert);
      if p in topology {
        var node := topology[p];
        var alive, fx := node.CheckQuery(env, n, advert, info, sia);
        Conclude(p, node, alive, fx, before);
      } else {
        var node, fx := QueryUnknown(n, advert, info, sia);
        Conclude(p, node, info.Some?, fx, before);
      }
    }

    /** Nobody knows the prefix: the answer is infinite, and the asker's route is kept. */
    method QueryUnknown(n: NbrId, advert: Advert, info: Option<Info>, sia: bool) returns (node: RtNode, fx: seq<Effect>)
      ensures fresh(node)
      ensures Outcome(if info.Some? then Some(node.View()) else None, fx) == N.CheckQuery(env, None, n, advert, info, sia)
    {
      node := new RtNode();
      fx := [SendReply(n, N.Capped(env, advert.(metric := advert.metric.(delay := INFINITE.delay))), false)];
      if info.Some? {
        var none := node.Absorb(n, info);
        node.SetSuccessor(Some(N.NewRoute(n, info.value)));
      }
    }

    method RecvReply(n: NbrId, p: Prefix, advert: Advert, sia: bool)
      requires Valid() && T.Enabled(View(), T.Reply(n, p, advert, sia))
      modifies this, Nodes()
      ensures Valid() && fresh(Nodes() - old(Nodes()))
      ensures View() == T.Next(old(View()), T.Reply(n, p, advert, sia))
    {
      hide N.Absorb, N.LastReply, Interpret, T.Commit;
      ghost var before := View();
      var info := Interpret(env, n, advert);
      if p !in topology {
        CommitNothing(before, p);
        return;
      }
      var node := topology[p];
      var alive, fx := node.CheckReply(env, n, info, sia);
      Conclude(p, node, alive, fx, before);
    }

    method LinkDownPrefix(n: NbrId, p: Prefix)
      requires Valid()
      modifies this, Nodes()
      ensures Valid() && Nodes() <= old(Nodes())
      ensures View() == T.LinkDownPrefix(old(View()), n, p)
    {
      hide N.LinkDown, T.Commit;
      if p in topology {
        ghost var before := View();
        var node := topology[p];
        var alive, fx := node.LinkDown(env, n);
        Conclude(p, node, alive, fx, before);
      }
    }

    /** Every prefix with a route over the lost link is told. */
    method LinkDownNbr(n: NbrId, walk: seq<Prefix>)
      requires Valid() && T.Enabled(View(), T.LinkDownNbr(n, walk))
      modifies this, Nodes()
      ensures Valid() && Nodes() <= old(Nodes())
      ensures View() == T.Next(old(View()), T.LinkDownNbr(n, walk))
    {
      hide T.LinkDownPrefix;
      for i := 0 to |walk|
        invariant Valid() && Nodes() <= old(Nodes())
        invariant View() == T.LinkDownWalk(old(View()), n, walk, i)
      {
        LinkDownPrefix(n, walk[i]);
      }
    }

    /** Replies the neighbour owes are struck one after the other; no computation is closed. */
    method DeleteNbr(n: NbrId)
      requires Valid()
      modifies this, Nodes()
      ensures Valid() && Nodes() <= old(Nodes())
      ensures View() == T.DeleteNbr(old(View()), n)
    {
      StrikeAll(n, if n in owing then owing[n] else []);
      owing := owing - {n};
      env := env.(nbrs := env.nbrs - {n}, order := RemoveFirst(env.order, n));
      assert Table() == T.StrikeReplies(old(Table()), n, if n in old(owing) then old(owing)[n] else []);
    }

    method StrikeAll(n: NbrId, ps: seq<Prefix>)
      requires Valid()
      modifies this`log, Nodes()
      ensures Valid() && Nodes() == old(Nodes())
      ensures Table() == T.StrikeReplies(old(Table()), n, ps) && log == old(log) + T.Strikes(ps, n)
    {
      hide T.StrikeReplies, T.Strikes, T.Strike;
      StrikeNone(Table(), n);
      for i := 0 to |ps|
        invariant Valid() && Nodes() == old(Nodes())
        invariant Table() == T.StrikeReplies(old(Table()), n, ps[..i]) && log == old(log) + T.Strikes(ps[..i], n)
      {
        assert ps[..i + 1] == ps[..i] + [ps[i]];
        StrikeOneMore(old(Table()), n, ps[..i], ps[i]);
        log := log + [T.Logged(ps[i], Settle(n))];
        StrikeReply(ps[i], n);
      }
      assert ps[..|ps|] == ps;
    }

    method StrikeReply(p: Prefix, n: NbrId)
      requires Valid()
      modifies Nodes()
      ensures Valid() && Nodes() == old(Nodes())
      ensures Table() == T.Strike(old(Table()), n, p)
    {
      if p in topology {
        topology[p].RemoveReply(n);
      }
    }

    method NbrDown(n: NbrId, walk: seq<Prefix>)
      requires Valid() && T.Enabled(View(), T.NbrDown(n, walk))
      modifies this, Nodes()
      ensures Valid() && Nodes() <= old(Nodes())
      ensures View() == T.Next(old(View()), T.NbrDown(n, walk))
    {
      hide T.DeleteNbr, T.LinkDownWalk;
      LinkDownNbr(n, walk);
      DeleteNbr(n);
    }

    method NbrUp(n: NbrId, nbr: Nbr)
      requires Valid() && T.Enabled(View(), T.NbrUp(n, nbr))
      modifies this
      ensures Valid() && Nodes() == old(Nodes())
      ensures View() == T.Next(old(View()), T.NbrUp(n, nbr))
    {
      env := env.(nbrs := env.nbrs[n := nbr], order := env.order + [n]);
      owing := owing[n := []];
      assert Table() == old(Table());
    }
  }

  lemma StrikeNone(t: map<Prefix, Node>, n: NbrId)
    ensures T.StrikeReplies(t, n, []) == t && T.Strikes([], n) == []
  {
  }

  lemma StrikeOneMore(t: map<Prefix, Node>, n: NbrId, ps: seq<Prefix>, p: Prefix)
    ensures T.StrikeReplies(t, n, ps + [p]) == T.Strike(T.StrikeReplies(t, n, ps), n, p)
    ensures T.Strikes(ps + [p], n) == T.Strikes(ps, n) + [T.Logged(p, Settle(n))]
  {
    assert (ps + [p])[..|ps + [p]| - 1] == ps;
  }

  lemma CommitNothing(s: T.Rde, p: Prefix)
    ensures T.Commit(s, p, Outcome(T.Lookup(s.topology, p), [])) == s
  {
    assert s.log + T.Tagged(p, []) == s.log;
  }
}
