/** A diffusing computation on one prefix: what stays fixed while it runs, what
    every accepted reply consumes, and what the forwarding table and the choice
    of successor look like when it is over. */
module DualProgress {
  import opened Prelude
  import opened DualTypes
  import opened DualNode
  import opened DualInvariant

  // ---------------------------------------------------------------- waiting for replies

  function TargetCount(env: Env, node: Node): nat {
    |Targets(env, node.succ.nbr, |env.order|)|
  }

  /** An active prefix always has somebody to hear from, and somebody to ask again. */
  ghost predicate Waiting(env: Env, node: Node) {
    node.state != Passive ==> node.rijk != [] && TargetCount(env, node) > 0
  }

  /** Replies still needed at most: those owed now and, unless the last round
      is running, those of one or two more rounds. */
  function RepliesLeft(env: Env, node: Node): nat {
    match node.state
    case Passive => 0
    case Active0 => |node.rijk| + 2 * TargetCount(env, node)
    case Active1 => |node.rijk| + TargetCount(env, node)
    case Active2 => |node.rijk| + TargetCount(env, node)
    case Active3 => |node.rijk|
  }

  /** From `before` to `after` without a reply: the computation is the same one and needs no more replies. */
  ghost predicate Steady(env: Env, before: Node, after: Node) {
    && after.succ.fdistance == before.succ.fdistance && after.succ.nbr == before.succ.nbr
    && RepliesLeft(env, after) <= RepliesLeft(env, before)
  }

  /** A prefix that was passive, or unknown, has just gone active. */
  ghost predicate JustStarted(env: Env, node: Node) {
    node.state != Passive ==> RepliesLeft(env, node) <= 2 * TargetCount(env, node)
  }

  /** The state after the last reply: passive, or a further round that fits the budget. */
  lemma LastReplyProgress(env: Env, node: Node)
    requires EnvOk(env) && Base(env, node) && node.rijk == [] && node.state != Passive
    ensures var o := LastReply(env, node);
            o.node.Some? && o.node.value.state != Passive ==>
              && (node.state == Active0 || node.state == Active2)
              && Steady(env, node, o.node.value)
              && |o.node.value.rijk| == TargetCount(env, node)
              && (TargetCount(env, node) > 0 ==> Waiting(env, o.node.value))
  {
    hide UpdateFib, Select, SetSuccessor, Queries, Updates;
    LastReplyStepOk(env, node);
  }

  lemma QuietProgress(env: Env, s: Step)
    requires EnvOk(env) && Base(env, s.node)
    requires s.node.state == Active1 || s.node.state == Active3 || s.node.rijk != [] || s.node.state == Passive
    requires s.node.state != Passive && s.node.rijk != [] ==> TargetCount(env, s.node) > 0
    ensures var o := CloseIfQuiet(env, s);
            o.node.Some? ==> Waiting(env, o.node.value) && (o.node.value.state != Passive ==> o.node.value == s.node)
  {
    if s.node.state != Passive && s.node.rijk == [] { LastReplyProgress(env, s.node); }
  }

  /** A prefix leaves the passive state only by asking everybody. */
  lemma DecideProgress(env: Env, node: Node, e: DualEvent, oldFd: uint32, replyTo: Option<NbrId>, fx: seq<Effect>)
    requires EnvOk(env) && Base(env, node) && node.state == Passive && node.rijk == []
    requires e == Evt3 || e == Evt4
    ensures var d := Decide(env, node, e, oldFd, replyTo);
            var o := CloseIfQuiet(env, Step(d.node, fx + d.fx));
            o.node.Some? ==> Waiting(env, o.node.value) && JustStarted(env, o.node.value)
  {
    DecideOk(env, node, e, oldFd, replyTo);
    var d := Decide(env, node, e, oldFd, replyTo);
    if Select(env, node).None? { GoActiveOk(env, node, e); }
    QuietProgress(env, Step(d.node, fx + d.fx));
  }

  predicate IsActive(n: Option<Node>) {
    n.Some? && n.value.state != Passive
  }

  /** One input moves a prefix from `prev` to `next`; `accepted` says whether it was a reply that counts. */
  ghost predicate Advances(env: Env, prev: Option<Node>, next: Option<Node>, accepted: bool) {
    && (next.Some? ==> Waiting(env, next.value))
    && (IsActive(next) && !IsActive(prev) ==> RepliesLeft(env, next.value) <= 2 * TargetCount(env, next.value))
    && (IsActive(next) && IsActive(prev) ==>
          RepliesLeft(env, next.value) + (if accepted then 1 else 0) <= RepliesLeft(env, prev.value))
  }

  lemma CheckUpdateProgress(env: Env, prev: Option<Node>, n: NbrId, info: Option<Info>)
    requires EnvOk(env) && n in env.nbrs && (prev.Some? ==> NodeOk(env, prev.value) && Waiting(env, prev.value))
    ensures Advances(env, prev, CheckUpdate(env, prev, n, info).node, false)
  {
    if prev.Some? || info.Some? {
      var start := if prev.None? then NEW_NODE else prev.value;
      AbsorbOk(env, start, n, info);
      var a := Absorb(start, n, info);
      if start.state == Passive {
        DecideProgress(env, a.node, Evt4, start.succ.fdistance, None, a.fx);
      }
    }
  }

  lemma ServeQueryProgress(env: Env, node: Node, n: NbrId, oldFd: uint32)
    requires EnvOk(env) && Base(env, node) && node.state != Passive
    ensures var s := ServeQuery(env, node, n, oldFd);
            s.node.state != Passive && s.node.rijk == node.rijk && Steady(env, node, s.node)
  {
    FsmOk(env, node, Evt5);
    FsmOk(env, node, Evt6);
  }

  lemma CheckQueryProgress(env: Env, prev: Option<Node>, n: NbrId, asked: Advert, info: Option<Info>, sia: bool)
    requires EnvOk(env) && n in env.nbrs && (prev.Some? ==> NodeOk(env, prev.value) && Waiting(env, prev.value))
    ensures Advances(env, prev, CheckQuery(env, prev, n, asked, info, sia).node, false)
  {
    hide Decide, LastReply, Select, Fsm, UpdateFib, InsertRoute, Capped;
    if prev.Some? {
      AbsorbOk(env, prev.value, n, info);
      var a := Absorb(prev.value, n, info);
      if prev.value.state == Passive {
        DecideProgress(env, a.node, Evt3, prev.value.succ.fdistance, Some(n), a.fx);
      } else {
        ServeQueryProgress(env, a.node, n, prev.value.succ.fdistance);
      }
    }
  }

  /** Every accepted reply is one fewer to wait for; ignored ones change nothing. */
  lemma CheckReplyProgress(env: Env, prev: Option<Node>, n: NbrId, info: Option<Info>, sia: bool)
    requires EnvOk(env) && n in env.nbrs && (prev.Some? ==> NodeOk(env, prev.value) && Waiting(env, prev.value))
    ensures Advances(env, prev, CheckReply(env, prev, n, info, sia).node, Awaited(prev, n) && !sia)
  {
    if Awaited(prev, n) && !sia {
      AbsorbOk(env, prev.value, n, info);
      var a := Absorb(prev.value, n, info);
      RemoveFirstFacts(a.node.rijk, n);
      var rest := a.node.(rijk := RemoveFirst(a.node.rijk, n));
      if rest.rijk == [] {
        LastReplyProgress(env, rest);
      }
    }
  }

  // ---------------------------------------------------------------- the feasible distance while active

  ghost predicate KeepsDistance(before: Option<Node>, after: Option<Node>) {
    before.Some? && before.value.state != Passive && after.Some? && after.value.state != Passive
    ==> after.value.succ.fdistance == before.value.succ.fdistance
  }

  lemma UpdateKeepsDistance(env: Env, prev: Option<Node>, n: NbrId, info: Option<Info>)
    requires EnvOk(env) && n in env.nbrs && (prev.Some? ==> NodeOk(env, prev.value))
    ensures KeepsDistance(prev, CheckUpdate(env, prev, n, info).node)
  {
    if prev.Some? && prev.value.state != Passive {
      AbsorbOk(env, prev.value, n, info);
      var a := Absorb(prev.value, n, info);
      if a.node.rijk == [] { LastReplyProgress(env, a.node); }
    }
  }

  lemma QueryKeepsDistance(env: Env, prev: Option<Node>, n: NbrId, asked: Advert, info: Option<Info>, sia: bool)
    requires EnvOk(env) && n in env.nbrs && (prev.Some? ==> NodeOk(env, prev.value))
    ensures KeepsDistance(prev, CheckQuery(env, prev, n, asked, info, sia).node)
  {
    if prev.Some? && prev.value.state != Passive {
      AbsorbOk(env, prev.value, n, info);
      var a := Absorb(prev.value, n, info);
      ServeQueryProgress(env, a.node, n, prev.value.succ.fdistance);
      ServeQueryOk(env, a.node, n, prev.value.succ.fdistance);
      var q := ServeQuery(env, a.node, n, prev.value.succ.fdistance);
      if q.node.rijk == [] { LastReplyProgress(env, q.node); }
    }
  }

  lemma ReplyKeepsDistance(env: Env, prev: Node, n: NbrId, info: Option<Info>, sia: bool)
    requires EnvOk(env) && n in env.nbrs && Base(env, prev)
    ensures KeepsDistance(Some(prev), CheckReply(env, Some(prev), n, info, sia).node)
  {
    if Awaited(Some(prev), n) && !sia {
      AbsorbOk(env, prev, n, info);
      var a := Absorb(prev, n, info);
      RemoveFirstFacts(a.node.rijk, n);
      var rest := a.node.(rijk := RemoveFirst(a.node.rijk, n));
      if rest.rijk == [] { LastReplyProgress(env, rest); }
    }
  }

  lemma DropRouteSame(node: Node, n: NbrId)
    ensures var r := DropRoute(node, n).node; r.succ == node.succ && r.state == node.state && r.rijk == node.rijk
  {}

  lemma LoseLinkKeepsDistance(env: Env, node: Node, n: NbrId, oldFd: uint32)
    requires EnvOk(env) && Base(env, node) && node.state != Passive
    ensures KeepsDistance(Some(node), Some(LoseLink(env, node, n, oldFd).node))
    ensures LoseLink(env, node, n, oldFd).node.state != Passive
  {
    FsmOk(env, node, Evt9);
    FsmOk(env, node, Evt10);
  }

  lemma LinkDownKeepsDistance(env: Env, node: Node, n: NbrId)
    requires EnvOk(env) && n in env.nbrs && NodeOk(env, node)
    ensures KeepsDistance(Some(node), LinkDown(env, node, n).node)
  {
    hide DropRoute, LoseLink, CheckReply;
    if HasRoute(node.routes, n) && node.state != Passive {
      DropRouteOk(env, node, n);
      DropRouteSame(node, n);
      var a := DropRoute(node, n);
      LoseLinkOk(env, a.node, n, node.succ.fdistance);
      LoseLinkKeepsDistance(env, a.node, n, node.succ.fdistance);
      ReplyKeepsDistance(env, LoseLink(env, a.node, n, node.succ.fdistance).node, n, None, false);
    }
  }
}
