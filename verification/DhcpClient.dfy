/** The lease state machine as the engine runs it: the fields of the interface
    updated in place, each handler proved to take the specified step. */
module DhcpClient {
  import opened Prelude
  import opened DhcpLease

  const LINK_STATE_UNKNOWN := 0
  const LINK_STATE_UP := 4

  /** What the frontend reports about an interface; `fileIp` is the address in
      its lease file, zero when there is none. */
  datatype IfInfo = IfInfo(hwAddress: seq<uint8>, rdomain: int, running: bool, linkState: int, fileIp: Addr)

  predicate LinkUp(linkState: int) {
    linkState >= LINK_STATE_UP || linkState == LINK_STATE_UNKNOWN
  }

  class Client {
    var state: IfState
    var timo: int
    var armed: bool
    var requestedIp: Addr
    var serverId: Addr
    var lease: uint32
    var t1: uint32
    var t2: uint32
    var v6Time: uint32
    var log: seq<Msg>
    var hwAddress: seq<uint8>
    var rdomain: int
    var running: bool
    var linkState: int

    ghost function View(): Iface
      reads this
    {
      Iface(state, timo, armed, requestedIp, serverId, lease, t1, t2, v6Time, log)
    }

    /** A newly seen interface, before its first refresh. */
    constructor (info: IfInfo)
      ensures View() == FRESH
      ensures hwAddress == info.hwAddress && rdomain == info.rdomain && running == info.running && linkState == info.linkState
    {
      state, timo, armed, requestedIp, serverId := Down, 0, false, NO_ADDR, NO_ADDR;
      lease, t1, t2, v6Time, log := 0, 0, 0, 0, [];
      hwAddress, rdomain, running, linkState := info.hwAddress, info.rdomain, info.running, info.linkState;
    }

    method Deconfigure()
      modifies this`log, this`serverId, this`requestedIp
      ensures View() == SendDeconfigure(old(View()))
    {
      if requestedIp == NO_ADDR {
        return;
      }
      log := log + [Msg.Deconfigure(requestedIp)];
      serverId := NO_ADDR;
      requestedIp := NO_ADDR;
    }

    method DhcpRequest()
      modifies this`log
      ensures View() == SendRequest(old(View()))
    {
      match state {
        case Rebooting => log := log + [Request(NO_ADDR, NO_ADDR, requestedIp, NO_ADDR)];
        case Requesting => log := log + [Request(NO_ADDR, serverId, requestedIp, NO_ADDR)];
        case Renewing => log := log + [Request(serverId, NO_ADDR, NO_ADDR, requestedIp)];
        case _ => log := log + [Request(NO_ADDR, NO_ADDR, NO_ADDR, requestedIp)];
      }
    }

    method EnterDown(prev: IfState, elapsed: nat)
      requires state == Down
      modifies this`log, this`serverId, this`requestedIp, this`timo
      ensures View() == ToDown(old(View()), prev, elapsed)
    {
      if requestedIp == NO_ADDR {
        timo := -1;
      } else if prev == Down {
        Deconfigure();
        timo := -1;
      } else {
        timo := lease - elapsed;
        if timo < 0 {
          timo := 0;
        }
      }
    }

    method EnterInit(prev: IfState) returns (fatal: bool)
      requires state == Init
      modifies this`log, this`serverId, this`requestedIp, this`timo
      ensures fatal <==> ToInit(old(View()), prev).Fatal?
      ensures !fatal ==> Live(View()) == ToInit(old(View()), prev)
    {
      match prev {
        case Init =>
          if timo < MAX_BACKOFF_SLOW {
            timo := timo * 2;
          }
        case Bound =>
          return true;
        case Down =>
          timo := START_BACKOFF;
        case Ipv6Only =>
          timo := START_BACKOFF;
        case _ =>
          Deconfigure();
          timo := START_BACKOFF;
      }
      log := log + [Discover];
      return false;
    }

    method EnterIpv6Only(prev: IfState) returns (fatal: bool)
      requires state == Ipv6Only
      modifies this`log, this`serverId, this`requestedIp, this`timo
      ensures fatal <==> ToIpv6Only(old(View()), prev).Fatal?
      ensures !fatal ==> Live(View()) == ToIpv6Only(old(View()), prev)
    {
      if prev == Bound {
        return true;
      }
      if Awaiting(prev) {
        Deconfigure();
      }
      timo := v6Time;
      return false;
    }

    method EnterRenewing(prev: IfState)
      requires state == Renewing
      modifies this`log, this`timo
      ensures View() == ToRenewing(old(View()), prev)
    {
      timo := if prev == Bound then Sub32(t2, t1) / 2 else timo / 2;
      if timo < 60 {
        timo := 60;
      }
      DhcpRequest();
    }

    /** The state transition, with the timer set or stopped at the end. */
    method Move(to: IfState, elapsed: nat) returns (fatal: bool)
      modifies this`state, this`log, this`serverId, this`requestedIp, this`timo, this`armed
      ensures fatal <==> Transition(old(View()), to, elapsed).Fatal?
      ensures !fatal ==> Live(View()) == Transition(old(View()), to, elapsed)
    {
      hide ToDown, ToInit, ToIpv6Only, ToRenewing;
      var prev := state;
      state := to;
      fatal := false;
      match to {
        case Down => EnterDown(prev, elapsed);
        case Init => fatal := EnterInit(prev);
        case Rebooting =>
          timo := if prev == Rebooting then timo * 2 else START_BACKOFF;
          DhcpRequest();
        case Requesting =>
          timo := if prev == Requesting then timo * 2 else START_BACKOFF;
          DhcpRequest();
        case Bound =>
          timo := t1;
          if prev == Requesting || prev == Rebooting {
            log := log + [Configure(requestedIp)];
          }
        case Renewing => EnterRenewing(prev);
        case Rebinding =>
          timo := if prev == Renewing then Sub32(lease, t2) / 2 else timo / 2;
          DhcpRequest();
        case Ipv6Only => fatal := EnterIpv6Only(prev);
      }
      if !fatal {
        armed := timo != -1;
      }
    }

    method OnTimer(elapsed: nat) returns (fatal: bool)
      requires armed
      modifies this`state, this`log, this`serverId, this`requestedIp, this`timo, this`armed
      ensures fatal <==> Next(old(View()), Timeout(elapsed)).Fatal?
      ensures !fatal ==> Live(View()) == Next(old(View()), Timeout(elapsed))
    {
      hide Transition;
      armed := false;
      var to := state;
      match state {
        case Rebooting => if timo >= MAX_BACKOFF_FAST { to := Init; }
        case Requesting => if timo >= MAX_BACKOFF_SLOW { to := Init; }
        case Bound => to := Renewing;
        case Renewing => if elapsed >= t2 { to := Rebinding; }
        case Rebinding => if elapsed > lease { to := Init; }
        case Ipv6Only => to := Requesting;
        case _ =>
      }
      fatal := Move(to, elapsed);
    }

    /** A report about a known interface: refreshed only if something changed. */
    method Update(info: IfInfo, elapsed: nat) returns (fatal: bool)
      modifies this
      ensures hwAddress == info.hwAddress && rdomain == info.rdomain && running == info.running && linkState == info.linkState
      ensures var same := old(hwAddress) == info.hwAddress && old(rdomain) == info.rdomain && old(running) == info.running
                          && old(linkState) == info.linkState;
              var e := Refresh(info.running && LinkUp(info.linkState), info.fileIp, elapsed);
              if same then View() == old(View()) && !fatal
              else (fatal <==> Next(old(View()), e).Fatal?) && (!fatal ==> Live(View()) == Next(old(View()), e))
    {
      hide Transition, OnRefresh, LinkUp;
      var refresh := false;
      if hwAddress != info.hwAddress {
        hwAddress := info.hwAddress;
        refresh := true;
      }
      if rdomain != info.rdomain {
        rdomain := info.rdomain;
        refresh := true;
      }
      if running != info.running {
        running := info.running;
        refresh := true;
      }
      if linkState != info.linkState {
        linkState := info.linkState;
        refresh := true;
      }
      if !refresh {
        return false;
      }
      fatal := Reconsider(info.fileIp, elapsed);
    }

    method Reconsider(fileIp: Addr, elapsed: nat) returns (fatal: bool)
      modifies this`state, this`log, this`serverId, this`requestedIp, this`timo, this`armed
      ensures var e := Refresh(running && LinkUp(linkState), fileIp, elapsed);
              (fatal <==> Next(old(View()), e).Fatal?) && (!fatal ==> Live(View()) == Next(old(View()), e))
    {
      hide Transition;
      if running && LinkUp(linkState) {
        if requestedIp == NO_ADDR {
          requestedIp := fileIp;
        }
        if requestedIp == NO_ADDR {
          fatal := Move(Init, elapsed);
        } else {
          fatal := Move(Rebooting, elapsed);
        }
      } else {
        fatal := Move(Down, elapsed);
      }
    }

    method OnReboot() returns (fatal: bool)
      modifies this`state, this`log, this`serverId, this`requestedIp, this`timo, this`armed
      ensures (fatal <==> Next(old(View()), RebootRequest).Fatal?) && (!fatal ==> Live(View()) == Next(old(View()), RebootRequest))
    {
      hide Transition;
      match state {
        case Down => return false;
        case Init => fatal := Move(Init, 0);
        case Requesting => fatal := Move(Requesting, 0);
        case _ => fatal := Move(Rebooting, 0);
      }
    }

    /** The renewal and rebinding times stored for an acknowledgement. */
    static method Sanitise(lease: uint32, renewal: uint32, rebinding: uint32) returns (t1: uint32, t2: uint32)
      ensures (t1, t2) == Times(lease, renewal, rebinding)
      ensures lease > 0 ==> TimesOk(lease, t1, t2)
    {
      t1, t2 := renewal, rebinding;
      if t1 == 0 { t1 := lease / 2; }
      if t2 == 0 { t2 := lease - lease / 8; }
      if t1 >= t2 {
        t1, t2 := 0, 0;
      } else if t2 >= lease {
        t1, t2 := 0, 0;
      }
      if t1 == 0 { t1 := lease / 2; }
      if t2 == 0 { t2 := lease - lease / 8; }
      if lease > 0 { TimesSanitised(lease, renewal, rebinding); }
    }

    method HandleOffer(r: Reply, preferV6: bool) returns (fatal: bool)
      requires r.Offer?
      modifies this`state, this`log, this`serverId, this`requestedIp, this`timo, this`armed, this`v6Time
      ensures (fatal <==> OnOffer(old(View()), r, preferV6).Fatal?) && (!fatal ==> Live(View()) == OnOffer(old(View()), r, preferV6))
    {
      hide Transition;
      if state != Init || (r.serverId == NO_ADDR && r.yiaddr == NO_ADDR) {
        return false;
      }
      if preferV6 && r.v6Time > 0 {
        v6Time := r.v6Time;
        fatal := Move(Ipv6Only, 0);
      } else {
        serverId, requestedIp := r.serverId, r.yiaddr;
        fatal := Move(Requesting, 0);
      }
    }

    method HandleAck(r: Reply, preferV6: bool) returns (fatal: bool)
      requires r.Ack?
      modifies this`state, this`log, this`serverId, this`requestedIp, this`timo, this`armed, this`v6Time, this`lease, this`t1, this`t2
      ensures (fatal <==> OnAck(old(View()), r, preferV6).Fatal?) && (!fatal ==> Live(View()) == OnAck(old(View()), r, preferV6))
    {
      hide Transition, Times;
      if !Awaiting(state) || (r.serverId == NO_ADDR && r.yiaddr == NO_ADDR) || r.lease == 0 || r.mask == NO_ADDR {
        return false;
      }
      var renewal, rebinding := Sanitise(r.lease, r.t1, r.t2);
      serverId, requestedIp := r.serverId, r.yiaddr;
      lease, t1, t2 := r.lease, renewal, rebinding;
      if preferV6 && r.v6Time > 0 {
        v6Time := r.v6Time;
        fatal := Move(Ipv6Only, 0);
      } else {
        fatal := Move(Bound, 0);
      }
    }

    method OnReply(r: Reply, preferV6: bool) returns (fatal: bool)
      modifies this`state, this`log, this`serverId, this`requestedIp, this`timo, this`armed, this`v6Time, this`lease, this`t1, this`t2
      ensures var e := Receive(r, preferV6);
              (fatal <==> Next(old(View()), e).Fatal?) && (!fatal ==> Live(View()) == Next(old(View()), e))
    {
      hide Transition, OnAck, OnOffer;
      fatal := false;
      match r {
        case Offer(_, _, _) => fatal := HandleOffer(r, preferV6);
        case Ack(_, _, _, _, _, _, _) => fatal := HandleAck(r, preferV6);
        case Nak =>
          if Awaiting(state) {
            fatal := Move(Init, 0);
          }
      }
    }
  }
}
