/** The callbacks of the proxy (src/ocproxy.c) that allocate, connect and delete slots, proved to
    do what the machine of ProxySteps does, and whole runs of them. */
module Proxy {
  import opened Basics
  import opened SlotPool
  import opened ProxySteps

  class Ocproxy {
    /** dns_domain is set */
    const domain: bool
    var pool: seq<Slot>
    var freeList: Option<nat>
    var bindList: Option<nat>
    var used: int
    var max: int
    // libevent, lwIP and the resolver
    var armed: set<nat>
    var pcbs: map<nat, Pcb>
    var nextPcb: nat
    var lookups: map<nat, bool>
    /** The slots on the free list, in order. */
    var free: seq<nat>

    function Now(): World
      reads this
    {
      World(pool, freeList, free, bindList, used, max, armed, pcbs, nextPcb, lookups)
    }

    /** The invariant between two events. */
    ghost predicate Valid()
      reads this
    {
      Inv(Now())
    }

    /** The pcb of a slot, if it has one, is live. */
    ghost predicate PcbLive(i: nat)
      reads this
    {
      i < |pool| && (pool[i].tpcb.Some? ==> pool[i].tpcb.value in pcbs)
    }

    constructor (d: bool)
      ensures domain == d && Now() == Boot() && Valid()
    {
      domain := d;
      pool := [];
      freeList, bindList, used, max := Some(0), None, 0, 0;
      armed, pcbs, nextPcb, lookups := {}, map[], 0, map[];
      free := From(0);
      new;
      while |pool| < MAX_CONN
        invariant |pool| <= MAX_CONN && forall i: nat | i < |pool| :: pool[i] == Linked(i)
        invariant Now() == Boot().(pool := pool)
      {
        pool := pool + [Linked(|pool|)];
      }
      assert pool == Boot().pool;
      BootOk();
    }

    /** ocp_sock_new: with no callback the slot has no event. */
    method SockNew(cb: Callback, activate: bool) returns (r: Option<nat>)
      requires freeList.Some? ==> freeList.value < |pool| && |free| > 0
      modifies `pool, `freeList, `bindList, `used, `max, `armed, `free
      ensures Now() == Taken(old(Now()), cb, activate) && r == old(freeList)
    {
      if freeList.None? { return None; }
      var i := freeList.value;
      freeList := pool[i].next;
      used := used + 1;
      if used > max { max := used; }
      pool := pool[i := Slot(bindList, New, false, false, cb, None)];
      bindList := Some(i);
      free := free[1..];
      if activate { EventAdd(i); }
      r := Some(i);
    }

    /** event_add */
    method EventAdd(i: nat)
      modifies `armed
      ensures armed == old(armed) + {i}
    {
      armed := armed + {i};
    }

    /** ocp_sock_del: a slot that waits for the resolver is only marked. */
    method SockDel(i: nat, stays: bool)
      requires PcbLive(i)
      modifies `pool, `freeList, `used, `pcbs, `armed, `free
      ensures Now() == Deleted(old(Now()), i, stays)
    {
      if pool[i].state.Dns? {
        pool := pool[i := pool[i].(state := Dead)];
        return;
      }
      if pool[i].tpcb.Some? { DropPcb(pool[i].tpcb.value, stays); }
      armed := armed - {i};
      pool := pool[i := Slot(freeList, Dead, false, false, NoEvent, None)];
      freeList := Some(i);
      free := [i] + free;
      used := used - 1;
    }

    /** tcp_arg(NULL) and tcp_close */
    method DropPcb(id: nat, stays: bool)
      requires id in pcbs
      modifies `pcbs
      ensures pcbs == if stays && old(pcbs)[id].established then old(pcbs)[id := Pcb(None, true)] else old(pcbs) - {id}
    {
      pcbs := pcbs[id := pcbs[id].(arg := None)];
      if !(stays && pcbs[id].established) { pcbs := pcbs - {id}; }
    }

    /** socks_reply: the slot goes unless the reply is success and was written in full. */
    method SocksReply(i: nat, success: bool, full: bool)
      requires PcbLive(i)
      modifies `pool, `freeList, `used, `pcbs, `armed, `free
      ensures Now() == if success && full then old(Now()) else Deleted(old(Now()), i, false)
    {
      if !(success && full) { SockDel(i, false); }
    }

    /** start_connection; whatever tcp_connect returns, the pcb is there. */
    method StartConnection(i: nat)
      requires i < |pool|
      modifies `pool, `pcbs, `nextPcb
      ensures Now() == Connected(old(Now()), i)
    {
      pool := pool[i := pool[i].(state := Connecting)];
      pcbs := pcbs[nextPcb := Pcb(Some(i), false)];
      pool := pool[i := pool[i].(tpcb := Some(nextPcb))];
      nextPcb := nextPcb + 1;
    }

    /** finish_resolution: a slot marked meanwhile is freed, and otherwise one without an address
        is marked and keeps its place. */
    method FinishResolution(i: nat, found: bool)
      requires i < |pool| && pool[i].tpcb.None?
      modifies this
      ensures Now() == Finished(old(Now()), i, found)
    {
      if pool[i].state.Dead? {
        SockDel(i, false);
        return;
      }
      if found {
        StartConnection(i);
        return;
      }
      if pool[i].socks {
        SocksReply(i, false, true);
      } else {
        SockDel(i, false);
      }
    }

    /** enqueue_dns_req, with retry_resolution or finish_resolution as the callback: the first
        lookup that is not refused decides. */
    method EnqueueDnsReq(i: nat, retry: bool, first: DnsResult, second: DnsResult)
      requires i < |pool| && pool[i].tpcb.None?
      modifies this
      ensures Now() == Resolving(old(Now()), i, Asked(retry, domain, first, second))
      decreases if retry then 2 else 0
    {
      match first
      case InProgress => lookups := lookups[i := retry];
      case Resolved => StartConnection(i);
      case Refused =>
        if retry { RetryResolution(i, false, second); } else { FinishResolution(i, false); }
    }

    /** retry_resolution */
    method RetryResolution(i: nat, found: bool, second: DnsResult)
      requires i < |pool| && pool[i].tpcb.None?
      modifies this
      ensures Now() == Resolving(old(Now()), i, Told(true, found, domain, second))
      decreases 1
    {
      if found || !domain {
        FinishResolution(i, found);
        return;
      }
      EnqueueDnsReq(i, false, second, second);
    }

    /** start_resolution */
    method StartResolution(i: nat, dotted: bool, first: DnsResult, second: DnsResult)
      requires i < |pool| && pool[i].tpcb.None?
      modifies this
      ensures Now() == Named(old(Now()), domain, i, dotted, first, second)
    {
      pool := pool[i := pool[i].(state := Dns)];
      EnqueueDnsReq(i, dotted, first, second);
    }

    // -------------------------------------------------------------------------
    // Callbacks from outside

    /** The resolver answers a lookup. */
    method Answer(i: nat, found: bool, second: DnsResult)
      requires Valid() && i in lookups
      modifies this
      ensures Now() == Next(old(Now()), domain, Answered(i, found, second)) && Valid()
    {
      StepOk(Now(), domain, Answered(i, found, second));
      assert SlotAt(Now(), i);
      var retry := lookups[i];
      lookups := lookups - {i};
      if retry { RetryResolution(i, found, second); } else { FinishResolution(i, found); }
    }

    /** new_conn_cb */
    method NewConn(socks: bool, dotted: bool, first: DnsResult, second: DnsResult)
      requires Valid()
      modifies this
      ensures Now() == Next(old(Now()), domain, Accept(socks, dotted, first, second)) && Valid()
    {
      StepOk(Now(), domain, Accept(socks, dotted, first, second));
      if freeList.Some? { HeadIsFree(Now()); }
      Admit(socks, dotted, first, second);
    }

    method Admit(socks: bool, dotted: bool, first: DnsResult, second: DnsResult)
      requires freeList.Some? ==> freeList.value < |pool| && |free| > 0
      modifies this
      ensures Now() == Accepted(old(Now()), domain, Accept(socks, dotted, first, second))
    {
      var r := SockNew(if socks then SocksCmdCb else LocalDataCb, false);
      if r.None? { return; }
      var i := r.value;
      pool := pool[i := pool[i].(socks := socks)];
      if socks {
        pool := pool[i := pool[i].(state := SocksAuth)];
        EventAdd(i);
      } else {
        StartResolution(i, dotted, first, second);
      }
    }

    /** The event of a slot fires. It is no longer armed when its callback runs; while relaying
        the slot has its pcb. */
    method EventFires(i: nat, read: Read)
      requires Valid() && i in armed
      modifies this
      ensures old(i < |pool| && (pool[i].state.Data? ==> pool[i].tpcb.Some? && pool[i].tpcb.value in pcbs))
      ensures Now() == Next(old(Now()), domain, Fire(i, read)) && Valid()
    {
      StepOk(Now(), domain, Fire(i, read));
      assert SlotAt(Now(), i);
      assert armed - {i} + {i} == armed;
      armed := armed - {i};
      match pool[i].cb
      case LwipDataCb => EventAdd(i);
      case LocalDataCb => LocalData(i, read);
      case SocksCmdCb => SocksCmdData(i, read);
      case NoEvent => assert false;
    }

    /** local_data_cb */
    method LocalData(i: nat, read: Read)
      requires PcbLive(i) && pool[i].tpcb.Some? && pool[i].state.Data? && !pool[i].cb.LwipDataCb? && i !in armed
      modifies this
      ensures Now() == Fired(old(Now()).(armed := old(armed) + {i}), domain, i, read)
    {
      assert armed + {i} - {i} == armed;
      if read.Blocked? {
        pool := pool[i := pool[i].(blocked := true)];
        return;
      }
      if read.Gone? {
        SockDel(i, read.stays);
        return;
      }
      EventAdd(i);
    }

    /** socks_cmd_cb: what the bytes read make it do. */
    method SocksCmdData(i: nat, read: Read)
      requires PcbLive(i) && i !in armed && pool[i].cb.SocksCmdCb?
      requires pool[i].state in {SocksAuth, SocksCmd, Data} && (pool[i].state.Data? <==> pool[i].tpcb.Some?)
      modifies this
      ensures Now() == Fired(old(Now()).(armed := old(armed) + {i}), domain, i, read)
    {
      assert armed + {i} - {i} == armed;
      if pool[i].state.Data? {
        LocalData(i, read);
        return;
      }
      if read.Gone? {
        SockDel(i, read.stays);
        return;
      }
      if pool[i].state.SocksAuth? {
        if read.Whole? { pool := pool[i := pool[i].(state := SocksCmd)]; }
        EventAdd(i);
      } else if read.Whole? {
        match read.request
        case Unsupported => SocksReply(i, false, true);
        case Ipv4 => StartConnection(i);
        case Name(dotted, first, second) => StartResolution(i, dotted, first, second);
      } else {
        EventAdd(i);
      }
    }

    /** tcp_err_cb: lwIP has freed the pcb. */
    method TcpErr(id: nat)
      requires Valid() && id in pcbs
      modifies this
      ensures Now() == Next(old(Now()), domain, Error(id)) && Valid()
    {
      StepOk(Now(), domain, Error(id));
      assert PcbAt(Now(), id);
      var arg := pcbs[id].arg;
      pcbs := pcbs - {id};
      if arg.Some? {
        var i := arg.value;
        assert SlotAt(old(Now()), i);
        pool := pool[i := pool[i].(tpcb := None)];
        if pool[i].state.Connecting? && pool[i].socks {
          SocksReply(i, false, true);
        } else {
          SockDel(i, false);
        }
      }
    }

    /** connect_cb. It goes on with the slot even if the success reply could not be written in
        full and the slot was deleted, so all is well exactly when the reply was. */
    method ConnectCb(id: nat, full: bool)
      requires Valid() && id in pcbs && !pcbs[id].established
      modifies this
      ensures old(pcbs[id]).arg.Some? && old(pcbs[id]).arg.value < old(|pool|)
      ensures Valid() <==> !old(pool[pcbs[id].arg.value]).socks || full
      ensures Now() == Next(old(Now()), domain, Established(id, full))
    {
      StepOk(Now(), domain, Established(id, full));
      assert PcbAt(Now(), id);
      var i := pcbs[id].arg.value;
      assert SlotAt(Now(), i);
      if pool[i].socks { SocksReply(i, true, full); }
      pool := pool[i := pool[i].(state := Data)];
      EventAdd(i);
      if id in pcbs { pcbs := pcbs[id := pcbs[id].(established := true)]; }
    }

    /** sent_cb */
    method SentCb(id: nat)
      requires Valid() && id in pcbs && pcbs[id].established
      modifies this
      ensures Now() == Next(old(Now()), domain, Sent(id)) && Valid()
    {
      StepOk(Now(), domain, Sent(id));
      assert PcbAt(Now(), id);
      if pcbs[id].arg.None? { return; }
      var i := pcbs[id].arg.value;
      if pool[i].blocked {
        pool := pool[i := pool[i].(blocked := false)];
        EventAdd(i);
      }
    }

    /** recv_cb: the end of the stream or a failed write ends the slot. */
    method RecvCb(id: nat, ends: bool, stays: bool)
      requires Valid() && id in pcbs && pcbs[id].established
      modifies this
      ensures Now() == Next(old(Now()), domain, Received(id, ends, stays)) && Valid()
    {
      StepOk(Now(), domain, Received(id, ends, stays));
      assert PcbAt(Now(), id);
      if pcbs[id].arg.None? { return; }
      assert SlotAt(Now(), pcbs[id].arg.value);
      if ends { SockDel(pcbs[id].arg.value, stays); }
    }
  }

  // ---------------------------------------------------------------------------
  // Whole runs

  /** One event, if it can happen now. */
  method Dispatch(p: Ocproxy, e: Event) returns (broken: bool)
    requires p.Valid()
    modifies p
    ensures Follows(old(p.Now()), p.domain, e, p.Now())
    ensures broken <==> Possible(old(p.Now()), e) && CutShort(old(p.Now()), e)
    ensures if broken then !Safe(p.Now()) else p.Valid() && Safe(p.Now())
  {
    broken := false;
    InvIsSafe(p.Now());
    if !Possible(p.Now(), e) { return; }
    StepOk(p.Now(), p.domain, e);
    broken := CutShort(p.Now(), e);
    match e
    case Accept(socks, dotted, first, second) => p.NewConn(socks, dotted, first, second);
    case Fire(i, read) => p.EventFires(i, read);
    case Answered(i, found, second) => p.Answer(i, found, second);
    case Error(id) => p.TcpErr(id);
    case Established(id, full) => p.ConnectCb(id, full);
    case Sent(id) => p.SentCb(id);
    case Received(id, ends, stays) => p.RecvCb(id, ends, stays);
  }

  /** main() up to the event loop; false: there are too many listeners and the process ends. */
  method Startup(p: Ocproxy, listeners: nat) returns (ok: bool)
    requires p.Now() == Boot()
    modifies p
    ensures ok <==> listeners < MAX_CONN
    ensures ok ==> p.Now() == Booted(listeners)
  {
    assert seq(0, i requires 0 <= i => NoEvent) == [];
    for n := 0 to listeners
      invariant n <= MAX_CONN && p.Now() == Listening(n)
    {
      ListeningOk(n);
      if p.freeList.Some? { HeadIsFree(p.Now()); }
      var s := p.SockNew(NoEvent, false);
      if s.None? { return false; }
      OneMoreListener(n);
    }
    ListeningOk(listeners);
    if p.freeList.Some? { HeadIsFree(p.Now()); }
    var vpn := p.SockNew(LwipDataCb, true);
    ok := vpn.Some?;
  }

  /** The event loop, until a success reply is cut short. */
  method Play(p: Ocproxy, listeners: nat, events: seq<Event>) returns (worlds: seq<World>, broken: bool)
    requires listeners < MAX_CONN && p.Now() == Booted(listeners)
    modifies p
    ensures IsRun(worlds, p.domain, listeners, events) && SafeUnless(worlds, broken)
    ensures !broken ==> |worlds| == |events| + 1
    ensures broken ==> |worlds| > 1 && CutShort(worlds[|worlds| - 2], events[|worlds| - 2])
  {
    FirstWorld(p.domain, listeners, events);
    worlds, broken := [p.Now()], false;
    for n := 0 to |events|
      invariant |worlds| == n + 1 && worlds[n] == p.Now() && p.Valid() && !broken
      invariant IsRun(worlds, p.domain, listeners, events) && SafeUnless(worlds, false)
    {
      broken := Dispatch(p, events[n]);
      LongerRun(worlds, p.domain, listeners, events, p.Now(), broken);
      worlds := worlds + [p.Now()];
      if broken { return; }
    }
  }

  /** Any run: listeners, the VPN socket, then events in any order. Each world follows from the
      one before, and in each the free list is sound and nobody points to a free slot. Only a
      success reply cut short spoils that, and the run stops there. */
  method Run(domain: bool, listeners: nat, events: seq<Event>) returns (worlds: seq<World>, broken: bool)
    ensures |worlds| == 0 <==> listeners >= MAX_CONN
    ensures |worlds| > 0 ==> IsRun(worlds, domain, listeners, events) && SafeUnless(worlds, broken)
    ensures |worlds| > 0 && !broken ==> |worlds| == |events| + 1
    ensures broken ==> 1 < |worlds| <= |events| + 1 && CutShort(worlds[|worlds| - 2], events[|worlds| - 2])
  {
    var p := new Ocproxy(domain);
    worlds, broken := [], false;
    var ok := Startup(p, listeners);
    if ok { worlds, broken := Play(p, listeners, events); }
  }

  /** A success reply cut short does do harm: a client connects, greets and asks for an address,
      lwIP connects, and the reply fails. The slot is then free and its event armed. */
  method ShortReplyBreaks(domain: bool) returns (w: World)
    ensures 0 in w.free && 0 in w.armed && !Safe(w)
  {
    var p := new Ocproxy(domain);
    p.NewConn(true, true, Refused, Refused);
    p.EventFires(0, Whole(Unsupported));
    var id := p.nextPcb;
    p.EventFires(0, Whole(Ipv4));
    ghost var v := p.Now();
    CutShortHarms(v, domain, Established(id, false));
    p.ConnectCb(id, false);
    w := p.Now();
    assert w.free[0] == 0;
  }
}
