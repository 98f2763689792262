/** The proxy (src/ocproxy.c) as a machine: what each event makes of the world. What read, write,
    lwIP and the resolver answer is part of the event. */
module ProxySteps {
  import opened Basics
  import opened SlotPool

  datatype DnsResult = InProgress | Resolved | Refused

  /** What reading a local socket comes to: lwIP has no room for the data, the client has gone or
      spoken nonsense, the negotiation needs more, or data or a message of it is there. */
  datatype Read = Blocked | Gone(stays: bool) | Partial | Whole(request: Request)

  /** A name comes with the answers to the first lookup and to the second, if there is one. */
  datatype Request = Unsupported | Ipv4 | Name(dotted: bool, first: DnsResult, second: DnsResult)

  datatype Event =
    | Accept(socks: bool, dotted: bool, first: DnsResult, second: DnsResult)
    | Fire(i: nat, read: Read)
    | Answered(i: nat, found: bool, second: DnsResult)
    | Error(id: nat)
    | Established(id: nat, full: bool)
    | Sent(id: nat)
    | Received(id: nat, ends: bool, stays: bool)

  predicate Possible(w: World, e: Event) {
    match e
    case Accept(_, _, _, _) => true
    case Fire(i, _) => i in w.armed
    case Answered(i, _, _) => i in w.lookups
    case Error(id) => id in w.pcbs
    case Established(id, _) => id in w.pcbs && !w.pcbs[id].established
    case Sent(id) => id in w.pcbs && w.pcbs[id].established
    case Received(id, _, _) => id in w.pcbs && w.pcbs[id].established
  }

  // ---------------------------------------------------------------------------
  // Name resolution

  /** What asking the resolver comes to: a lookup is outstanding, the address is known at once,
      or the resolution is finished. */
  datatype Outcome = Waits(retry: bool) | AtOnce | Finishes(found: bool)

  /** The first lookup that is not refused decides. There is a second only if the first is to be
      retried and there is a domain to append, and it is the last. */
  function Asked(retry: bool, domain: bool, first: DnsResult, second: DnsResult): Outcome {
    var again := first.Refused? && retry && domain;
    match if again then second else first
    case InProgress => Waits(retry && !again)
    case Resolved => AtOnce
    case Refused => Finishes(false)
  }

  /** The resolver answers. */
  function Told(retry: bool, found: bool, domain: bool, second: DnsResult): Outcome {
    if retry && !found && domain then Asked(false, domain, second, second) else Finishes(found)
  }

  /** finish_resolution */
  function Finished(w: World, i: nat, found: bool): World
    requires i < |w.pool| && w.pool[i].tpcb.None?
  {
    if w.pool[i].state.Dead? || !found then Deleted(w, i, false) else Connected(w, i)
  }

  function Resolving(w: World, i: nat, o: Outcome): World
    requires i < |w.pool| && w.pool[i].tpcb.None?
  {
    match o
    case Waits(retry) => w.(lookups := w.lookups[i := retry])
    case AtOnce => Connected(w, i)
    case Finishes(found) => Finished(w, i, found)
  }

  /** start_resolution, which asks for a dotted name as it is and retries with the domain. */
  function Named(w: World, domain: bool, i: nat, dotted: bool, first: DnsResult, second: DnsResult): World
    requires i < |w.pool| && w.pool[i].tpcb.None?
  {
    Resolving(Put(w, i, w.pool[i].(state := Dns)), i, Asked(dotted, domain, first, second))
  }

  // ---------------------------------------------------------------------------
  // The events

  /** new_conn_cb: a SOCKS client is to authenticate, another is connected to the host of its
      listener. */
  function Accepted(w: World, domain: bool, e: Event): World
    requires e.Accept?
  {
    var v := Taken(w, if e.socks then SocksCmdCb else LocalDataCb, false);
    if v == w || v.bindList.None? || v.bindList.value >= |v.pool| then w
    else
      var i := v.bindList.value;
      if e.socks then
        Put(v, i, v.pool[i].(socks := true, state := SocksAuth)).(armed := v.armed + {i})
      else if v.pool[i].tpcb.None? then Named(v, domain, i, e.dotted, e.first, e.second) else v
  }

  /** The event of a slot fires. While relaying, a client that has gone frees the slot, and
      otherwise the event is armed again, unless lwIP has to make room first. In a negotiation a
      complete message takes the slot a step further. */
  function Fired(w: World, domain: bool, i: nat, read: Read): World
    requires i < |w.pool| && (w.pool[i].tpcb.Some? ==> w.pool[i].tpcb.value in w.pcbs)
    requires w.pool[i].state.SocksCmd? ==> w.pool[i].tpcb.None?
  {
    var slot, v := w.pool[i], w.(armed := w.armed - {i});
    if slot.cb.LwipDataCb? then w
    else if read.Gone? then Deleted(v, i, read.stays)
    else if slot.state.Data? then if read.Blocked? then Put(v, i, slot.(blocked := true)) else w
    else if !read.Whole? then w
    else if slot.state.SocksAuth? then Put(w, i, slot.(state := SocksCmd))
    else if slot.state.SocksCmd? then
      match read.request
      case Unsupported => Deleted(v, i, false)
      case Ipv4 => Connected(v, i)
      case Name(dotted, first, second) => Named(v, domain, i, dotted, first, second)
    else w
  }

  /** connect_cb: the slot relays and its event is armed, even if the success reply could not be
      written in full and the slot has been deleted. */
  function Joined(w: World, id: nat, i: nat, full: bool): World
    requires i < |w.pool| && w.pool[i].tpcb == Some(id) && id in w.pcbs && !w.pcbs[id].established
  {
    var v := if w.pool[i].socks && !full then Deleted(w, i, false) else w.(pcbs := w.pcbs[id := Pcb(Some(i), true)]);
    Put(v, i, v.pool[i].(state := Data)).(armed := v.armed + {i})
  }

  ghost function Next(w: World, domain: bool, e: Event): World
    requires Inv(w) && Possible(w, e)
  {
    match e
    case Accept(_, _, _, _) => Accepted(w, domain, e)
    case Fire(i, read) => assert SlotAt(w, i); Fired(w, domain, i, read)
    case Answered(i, found, second) =>
      assert SlotAt(w, i);
      Resolving(w.(lookups := w.lookups - {i}), i, Told(w.lookups[i], found, domain, second))
    case Error(id) => Errored(w, id)
    case Established(id, full) => assert PcbAt(w, id); Joined(w, id, w.pcbs[id].arg.value, full)
    case Sent(id) => Resumed(w, id)
    case Received(id, ends, stays) => if ends then Ended(w, id, stays) else w
  }

  /** tcp_err_cb: lwIP has freed the pcb, and its slot goes too. */
  ghost function Errored(w: World, id: nat): World
    requires Inv(w) && id in w.pcbs
  {
    assert PcbAt(w, id);
    match w.pcbs[id].arg
    case None => w.(pcbs := w.pcbs - {id})
    case Some(i) => Freed(w, i, false)
  }

  /** sent_cb: there is room again. */
  ghost function Resumed(w: World, id: nat): World
    requires Inv(w) && id in w.pcbs
  {
    assert PcbAt(w, id);
    match w.pcbs[id].arg
    case None => w
    case Some(i) =>
      if w.pool[i].blocked then Put(w, i, w.pool[i].(blocked := false)).(armed := w.armed + {i}) else w
  }

  /** recv_cb at the end of the stream, or when the local socket fails. */
  ghost function Ended(w: World, id: nat, stays: bool): World
    requires Inv(w) && id in w.pcbs
  {
    assert PcbAt(w, id);
    match w.pcbs[id].arg
    case None => w
    case Some(i) => Freed(w, i, stays)
  }

  // ---------------------------------------------------------------------------
  // What a step keeps

  /** A success reply that could not be written in full. */
  predicate CutShort(w: World, e: Event) {
    && e.Established? && !e.full && e.id in w.pcbs
    && match w.pcbs[e.id].arg
       case None => false
       case Some(i) => i < |w.pool| && w.pool[i].socks
  }

  /** The first lookup is refused, and so is the second unless there is none. */
  predicate Hopeless(dotted: bool, domain: bool, first: DnsResult, second: DnsResult) {
    first.Refused? && !(dotted && domain && !second.Refused?)
  }

  /** The slots an event loses: those whose name could not be resolved. */
  function Failing(w: World, domain: bool, e: Event): set<nat> {
    match e
    case Accept(false, dotted, first, second) =>
      if w.freeList.Some? && Hopeless(dotted, domain, first, second) then {w.freeList.value} else {}
    case Fire(i, Whole(Name(dotted, first, second))) =>
      if i < |w.pool| && w.pool[i].cb.SocksCmdCb? && w.pool[i].state.SocksCmd?
         && Hopeless(dotted, domain, first, second) then {i}
      else {}
    case Answered(i, found, second) =>
      if i in w.lookups && !found && !(w.lookups[i] && domain && !second.Refused?) then {i} else {}
    case _ => {}
  }

  /** A slot about to be resolved: in use, with nothing but an event. */
  ghost predicate Bare(w: World, i: nat) {
    && i < |w.pool| && i !in w.free && i !in w.armed && i !in w.lookups && w.nextPcb !in w.pcbs
    && w.pool[i].cb in {LocalDataCb, SocksCmdCb} && w.pool[i].state.Dns? && !w.pool[i].blocked && w.pool[i].tpcb.None?
  }

  /** Whatever the resolver says, the slot then waits for something, or is lost. */
  lemma ResolvingAt(w: World, i: nat, o: Outcome)
    requires Bare(w, i)
    ensures var w' := Resolving(w, i, o);
      && OnlyAt(w, w', i, w.nextPcb) && SlotAt(w', i) && (w.nextPcb in w'.pcbs ==> PcbAt(w', w.nextPcb))
      && w' == w.(pool := w'.pool, pcbs := w'.pcbs, nextPcb := w'.nextPcb, lookups := w'.lookups)
      && (Lost(w', i) <==> o == Finishes(false))
      && (match o
          case Waits(retry) => i in w'.lookups && w'.lookups[i] == retry && w'.pool[i].state.Dns?
          case AtOnce => w'.pool[i].state.Connecting?
          case Finishes(found) => w'.pool[i].state == if found then Connecting else Dead)
  {
  }

  lemma FreshPcb(w: World)
    requires Inv(w)
    ensures w.nextPcb !in w.pcbs
  {
  }

  /** A free slot becomes one for a new client. */
  lemma AcceptOk(w: World, domain: bool, e: Event)
    requires Inv(w) && e.Accept?
    ensures Inv(Accepted(w, domain, e)) && Loses(w, Accepted(w, domain, e), Failing(w, domain, e))
  {
    if w.freeList.Some? {
      HeadIsFree(w);
      if e.socks {
        FramedTaken(w, Accepted(w, domain, e), w.freeList.value);
      } else {
        AcceptNamedOk(w, domain, e);
      }
    }
  }

  lemma AcceptNamedOk(w: World, domain: bool, e: Event)
    requires Inv(w) && e.Accept? && !e.socks && w.freeList.Some?
    ensures Inv(Accepted(w, domain, e)) && Loses(w, Accepted(w, domain, e), Failing(w, domain, e))
  {
    HeadIsFree(w);
    FreshPcb(w);
    ChainPop(w.pool, w.free);
    var v, i := Taken(w, LocalDataCb, false), w.freeList.value;
    ResolvingAt(Put(v, i, v.pool[i].(state := Dns)), i, Asked(e.dotted, domain, e.first, e.second));
    FramedTaken(w, Accepted(w, domain, e), i);
  }

  lemma FireOk(w: World, domain: bool, i: nat, read: Read)
    requires Inv(w) && i in w.armed
    ensures Inv(Next(w, domain, Fire(i, read)))
    ensures Loses(w, Next(w, domain, Fire(i, read)), Failing(w, domain, Fire(i, read)))
  {
    assert SlotAt(w, i);
    var slot := w.pool[i];
    if slot.cb.LwipDataCb? || Fired(w, domain, i, read) == w {
    } else if read.Gone? {
      FreedOk(w, i, read.stays);
      DeletedFired(w, i, read.stays);
    } else if slot.state.SocksCmd? && read.request.Unsupported? {
      FreedOk(w, i, false);
      DeletedFired(w, i, false);
    } else if slot.state.SocksCmd? && read.request.Name? {
      FireNamedOk(w, domain, i, read.request);
    } else if slot.state.SocksCmd? {
      FireAddressOk(w, domain, i);
    } else {
      FireStaysOk(w, domain, i, read);
    }
  }

  /** Relaying blocks, or the greeting is complete. */
  lemma FireStaysOk(w: World, domain: bool, i: nat, read: Read)
    requires Inv(w) && i in w.armed && i < |w.pool| && w.pool[i].cb in {LocalDataCb, SocksCmdCb}
    requires if w.pool[i].state.Data? then read.Blocked? else w.pool[i].state.SocksAuth? && read.Whole?
    ensures Inv(Next(w, domain, Fire(i, read))) && Loses(w, Next(w, domain, Fire(i, read)), {})
  {
    assert SlotAt(w, i);
    FreshPcb(w);
    var id := if w.pool[i].tpcb.Some? then w.pool[i].tpcb.value else w.nextPcb;
    FramedInUse(w, Fired(w, domain, i, read), i, id);
  }

  /** Deletion of a slot whose event fired. */
  lemma DeletedFired(w: World, i: nat, stays: bool)
    requires i < |w.pool| && (w.pool[i].tpcb.Some? ==> w.pool[i].tpcb.value in w.pcbs) && !w.pool[i].state.Dns?
    ensures Deleted(w.(armed := w.armed - {i}), i, stays) == Freed(w, i, stays)
  {
    assert w.armed - {i} - {i} == w.armed - {i};
  }

  lemma FireNamedOk(w: World, domain: bool, i: nat, request: Request)
    requires Inv(w) && i in w.armed && i < |w.pool| && w.pool[i].state.SocksCmd? && request.Name?
    ensures Inv(Next(w, domain, Fire(i, Whole(request))))
    ensures Loses(w, Next(w, domain, Fire(i, Whole(request))), Failing(w, domain, Fire(i, Whole(request))))
  {
    assert SlotAt(w, i);
    FreshPcb(w);
    var v := Put(w, i, w.pool[i].(state := Dns)).(armed := w.armed - {i});
    ResolvingAt(v, i, Asked(request.dotted, domain, request.first, request.second));
    FramedInUse(w, Fired(w, domain, i, Whole(request)), i, w.nextPcb);
  }

  lemma FireAddressOk(w: World, domain: bool, i: nat)
    requires Inv(w) && i in w.armed && i < |w.pool| && w.pool[i].state.SocksCmd?
    ensures Inv(Next(w, domain, Fire(i, Whole(Ipv4)))) && Loses(w, Next(w, domain, Fire(i, Whole(Ipv4))), {})
  {
    assert SlotAt(w, i);
    FreshPcb(w);
    FramedInUse(w, Fired(w, domain, i, Whole(Ipv4)), i, w.nextPcb);
  }

  lemma AnsweredOk(w: World, domain: bool, e: Event)
    requires Inv(w) && e.Answered? && Possible(w, e)
    ensures Inv(Next(w, domain, e)) && Loses(w, Next(w, domain, e), Failing(w, domain, e))
  {
    assert SlotAt(w, e.i);
    FreshPcb(w);
    ResolvingAt(w.(lookups := w.lookups - {e.i}), e.i, Told(w.lookups[e.i], e.found, domain, e.second));
    FramedInUse(w, Next(w, domain, e), e.i, w.nextPcb);
  }

  lemma PcbEventOk(w: World, domain: bool, e: Event)
    requires Inv(w) && (e.Error? || e.Received?) && Possible(w, e)
    ensures Inv(Next(w, domain, e)) && Loses(w, Next(w, domain, e), {})
  {
    assert PcbAt(w, e.id);
    match w.pcbs[e.id].arg
    case None => OrphanOk(w, e.id);
    case Some(i) =>
      assert SlotAt(w, i);
      FreedOk(w, i, e.Received? && e.stays);
  }

  /** A pcb without argument may go. */
  lemma OrphanOk(w: World, id: nat)
    requires Inv(w) && id in w.pcbs && w.pcbs[id].arg.None?
    ensures Inv(w.(pcbs := w.pcbs - {id})) && Loses(w, w.(pcbs := w.pcbs - {id}), {})
  {
    var w' := w.(pcbs := w.pcbs - {id});
    forall j: nat | j < |w'.pool| ensures SlotAt(w', j) { assert SlotAt(w, j); }
    forall d: nat | d in w'.pcbs ensures PcbAt(w', d) { assert PcbAt(w, d); }
  }

  lemma SentOk(w: World, domain: bool, e: Event)
    requires Inv(w) && e.Sent? && Possible(w, e)
    ensures Inv(Next(w, domain, e)) && Loses(w, Next(w, domain, e), {})
  {
    assert PcbAt(w, e.id);
    if w.pcbs[e.id].arg.Some? {
      var i := w.pcbs[e.id].arg.value;
      assert SlotAt(w, i);
      if w.pool[i].blocked { FramedInUse(w, Next(w, domain, e), i, e.id); }
    }
  }

  lemma EstablishedOk(w: World, domain: bool, e: Event)
    requires Inv(w) && e.Established? && Possible(w, e) && !CutShort(w, e)
    ensures Inv(Next(w, domain, e)) && Loses(w, Next(w, domain, e), {})
  {
    assert PcbAt(w, e.id);
    assert SlotAt(w, w.pcbs[e.id].arg.value);
    FramedInUse(w, Next(w, domain, e), w.pcbs[e.id].arg.value, e.id);
  }

  /** A reply cut short leaves a free slot with an armed event. */
  lemma CutShortHarms(w: World, domain: bool, e: Event)
    requires Inv(w) && Possible(w, e) && CutShort(w, e)
    ensures !Inv(Next(w, domain, e)) && !Safe(Next(w, domain, e))
  {
    assert PcbAt(w, e.id);
    var i, w' := w.pcbs[e.id].arg.value, Next(w, domain, e);
    assert SlotAt(w, i);
    assert w'.free[0] == i && i in w'.armed;
    assert !Unreferenced(w', i);
    assert !SlotAt(w', i);
  }

  /** Every event keeps the invariant, exactly unless a success reply is cut short, and then the
      pool is not even safe. It loses exactly the slots whose name could not be resolved. */
  lemma StepOk(w: World, domain: bool, e: Event)
    requires Inv(w) && Possible(w, e)
    ensures Inv(Next(w, domain, e)) <==> !CutShort(w, e)
    ensures Safe(Next(w, domain, e)) <==> !CutShort(w, e)
    ensures !CutShort(w, e) ==> Loses(w, Next(w, domain, e), Failing(w, domain, e))
  {
    if CutShort(w, e) {
      CutShortHarms(w, domain, e);
    } else {
      match e {
        case Accept(_, _, _, _) => AcceptOk(w, domain, e);
        case Fire(i, read) => FireOk(w, domain, i, read);
        case Answered(_, _, _) => AnsweredOk(w, domain, e);
        case Established(_, _) => EstablishedOk(w, domain, e);
        case Sent(_) => SentOk(w, domain, e);
        case _ => PcbEventOk(w, domain, e);
      }
      InvIsSafe(Next(w, domain, e));
    }
  }

  // ---------------------------------------------------------------------------
  // Whole runs

  /** The world after an event, if that can happen. */
  ghost predicate Follows(w: World, domain: bool, e: Event, w': World) {
    Inv(w) && w' == if Possible(w, e) then Next(w, domain, e) else w
  }

  ghost predicate StepAt(ws: seq<World>, domain: bool, es: seq<Event>, k: nat)
    requires k + 1 < |ws| <= |es| + 1
  {
    Follows(ws[k], domain, es[k], ws[k + 1])
  }

  /** The worlds from startup on, each following from the one before by the next event. */
  ghost predicate IsRun(ws: seq<World>, domain: bool, listeners: nat, es: seq<Event>) {
    && 0 < |ws| <= |es| + 1 && listeners < MAX_CONN && ws[0] == Booted(listeners)
    && forall k: nat | k + 1 < |ws| :: StepAt(ws, domain, es, k)
  }

  /** All these worlds are safe, except the last if the run broke. */
  ghost predicate SafeUnless(worlds: seq<World>, broken: bool) {
    forall k: nat | k < |worlds| :: Safe(worlds[k]) <==> !(broken && k + 1 == |worlds|)
  }

  lemma FirstWorld(domain: bool, listeners: nat, es: seq<Event>)
    requires listeners < MAX_CONN
    ensures Inv(Booted(listeners)) && SafeUnless([Booted(listeners)], false)
    ensures IsRun([Booted(listeners)], domain, listeners, es)
  {
    BootedOk(listeners);
    InvIsSafe(Booted(listeners));
  }

  lemma LongerRun(ws: seq<World>, domain: bool, listeners: nat, es: seq<Event>, w': World, broken: bool)
    requires IsRun(ws, domain, listeners, es) && |ws| <= |es| && SafeUnless(ws, false)
    requires Follows(ws[|ws| - 1], domain, es[|ws| - 1], w') && (Safe(w') <==> !broken)
    ensures IsRun(ws + [w'], domain, listeners, es) && SafeUnless(ws + [w'], broken)
  {
    var longer := ws + [w'];
    forall k: nat | k + 1 < |longer| ensures StepAt(longer, domain, es, k) {
      if k + 1 < |ws| { assert StepAt(ws, domain, es, k); }
    }
  }

  /** Event k could happen and the name of slot i could then not be resolved. */
  predicate FailsAt(ws: seq<World>, domain: bool, es: seq<Event>, k: nat, i: nat)
    requires k < |ws| && k < |es|
  {
    Possible(ws[k], es[k]) && i in Failing(ws[k], domain, es[k])
  }

  /** In every run a slot is lost exactly if at some time its name could not be resolved. */
  lemma {:induction false} LostIffFailed(
      ws: seq<World>, domain: bool, listeners: nat, es: seq<Event>, n: nat, i: nat)
    requires IsRun(ws, domain, listeners, es) && n < |ws| && Inv(ws[n])
    ensures Lost(ws[n], i) <==> exists k: nat | k < n :: FailsAt(ws, domain, es, k, i)
  {
    if n == 0 {
      BootedOk(listeners);
    } else {
      assert StepAt(ws, domain, es, n - 1);
      LostIffFailed(ws, domain, listeners, es, n - 1, i);
      LostInStep(ws[n - 1], domain, es[n - 1], ws[n], i);
      if FailsAt(ws, domain, es, n - 1, i) { assert Lost(ws[n], i); }
    }
  }

  lemma LostInStep(w: World, domain: bool, e: Event, w': World, i: nat)
    requires Follows(w, domain, e, w') && Inv(w')
    ensures Lost(w', i) <==> Lost(w, i) || (Possible(w, e) && i in Failing(w, domain, e))
  {
    if Possible(w, e) { StepOk(w, domain, e); }
  }

  /** A slot in use is given back exactly when its client has gone or asks for something that is
      not supported, when its pcb is lost, or at the end of its stream. */
  lemma FreedIff(w: World, domain: bool, e: Event, i: nat)
    requires Inv(w) && Possible(w, e) && !CutShort(w, e) && i < |w.pool| && i !in w.free
    ensures i in Next(w, domain, e).free <==>
      || (e.Fire? && e.i == i && !w.pool[i].cb.LwipDataCb? && e.read.Gone?)
      || (e == Fire(i, Whole(Unsupported)) && w.pool[i].state.SocksCmd?)
      || (e.Error? && w.pool[i].tpcb == Some(e.id))
      || (e.Received? && e.ends && w.pool[i].tpcb == Some(e.id))
  {
    assert SlotAt(w, i);
    if e.Accept? {
      if w.freeList.Some? {
        HeadIsFree(w);
        assert w.free == [w.free[0]] + w.free[1..];
      }
    } else if e.Fire? {
      assert SlotAt(w, e.i);
    } else if e.Answered? {
      assert SlotAt(w, e.i);
    } else {
      assert PcbAt(w, e.id);
      if w.pcbs[e.id].arg.Some? { assert SlotAt(w, w.pcbs[e.id].arg.value); }
    }
  }

  /** What makes a slot that stays in use change its state: a complete greeting, a request for an
      address or a name, the answer to its lookup, and the end of the handshake. */
  lemma StateIff(w: World, domain: bool, e: Event, i: nat)
    requires Inv(w) && Possible(w, e) && !CutShort(w, e)
    requires i < |w.pool| && i !in w.free && i !in Next(w, domain, e).free
    ensures i < |Next(w, domain, e).pool|
    ensures var (slot, st') := (w.pool[i], Next(w, domain, e).pool[i].state);
      match slot.state
      case SocksAuth => st' == if e.Fire? && e.i == i && e.read.Whole? then SocksCmd else SocksAuth
      case SocksCmd =>
        if e.Fire? && e.i == i && e.read.Whole? then
          if e.read.request.Ipv4? then st'.Connecting? else NamedBecomes(domain, e.read.request, st')
        else st'.SocksCmd?
      case Dns => (e.Answered? && e.i == i) || st'.Dns?
      case Connecting => st' == if e.Established? && slot.tpcb == Some(e.id) then Data else Connecting
      case st => st' == st
  {
    if e.Fire? {
      assert SlotAt(w, i);
      FireState(w, domain, e.i, e.read, i);
    } else {
      OtherState(w, domain, e, i);
    }
  }

  lemma OtherState(w: World, domain: bool, e: Event, i: nat)
    requires Inv(w) && Possible(w, e) && !CutShort(w, e)
    requires i < |w.pool| && i !in w.free && i !in Next(w, domain, e).free
    requires !e.Fire?
    ensures i < |Next(w, domain, e).pool|
    ensures var (slot, st') := (w.pool[i], Next(w, domain, e).pool[i].state);
      if e.Established? && slot.tpcb == Some(e.id) then slot.state.Connecting? && st'.Data?
      else if e.Answered? && e.i == i then slot.state.Dns? else st' == slot.state
  {
    if e.Accept? {
      AcceptState(w, domain, e, i);
    } else if e.Answered? {
      assert SlotAt(w, e.i);
    } else {
      PcbEventState(w, domain, e, i);
    }
  }

  lemma AcceptState(w: World, domain: bool, e: Event, i: nat)
    requires Inv(w) && e.Accept? && i < |w.pool| && i !in w.free
    ensures i < |Accepted(w, domain, e).pool| && Accepted(w, domain, e).pool[i] == w.pool[i]
  {
    if w.freeList.Some? { HeadIsFree(w); }
  }

  lemma PcbEventState(w: World, domain: bool, e: Event, i: nat)
    requires Inv(w) && (e.Error? || e.Established? || e.Sent? || e.Received?) && Possible(w, e) && !CutShort(w, e)
    requires i < |w.pool| && i !in w.free && i !in Next(w, domain, e).free
    ensures i < |Next(w, domain, e).pool|
    ensures var (slot, st') := (w.pool[i], Next(w, domain, e).pool[i].state);
      if e.Established? && slot.tpcb == Some(e.id) then slot.state.Connecting? && st'.Data? else st' == slot.state
  {
    assert PcbAt(w, e.id);
    assert SlotAt(w, i);
  }

  lemma FireState(w: World, domain: bool, j: nat, read: Read, i: nat)
    requires Inv(w) && j in w.armed && i < |w.pool| && i !in Next(w, domain, Fire(j, read)).free
    ensures i < |Next(w, domain, Fire(j, read)).pool|
    ensures var (slot, st') := (w.pool[i], Next(w, domain, Fire(j, read)).pool[i].state);
      if i != j || !read.Whole? then st' == slot.state
      else if slot.state.SocksAuth? then st'.SocksCmd?
      else if slot.state.SocksCmd? then
        if read.request.Ipv4? then st'.Connecting? else NamedBecomes(domain, read.request, st')
      else st' == slot.state
  {
    assert SlotAt(w, j);
    if i != j { FireOther(w, domain, j, read, i); } else { FireOwn(w, domain, i, read); }
  }

  lemma FireOther(w: World, domain: bool, j: nat, read: Read, i: nat)
    requires Inv(w) && j in w.armed && i < |w.pool| && i != j
    ensures var w' := Next(w, domain, Fire(j, read)); i < |w'.pool| && w'.pool[i] == w.pool[i]
  {
    assert SlotAt(w, j);
  }

  lemma FireOwn(w: World, domain: bool, i: nat, read: Read)
    requires Inv(w) && i in w.armed && i < |w.pool| && i !in Next(w, domain, Fire(i, read)).free
    ensures i < |Next(w, domain, Fire(i, read)).pool|
    ensures var (slot, st') := (w.pool[i], Next(w, domain, Fire(i, read)).pool[i].state);
      if read.Whole? && slot.state.SocksAuth? then st'.SocksCmd?
      else if read.Whole? && slot.state.SocksCmd? then
        if read.request.Ipv4? then st'.Connecting? else NamedBecomes(domain, read.request, st')
      else st' == slot.state
  {
    assert SlotAt(w, i);
    if read.Whole? && w.pool[i].state.SocksCmd? && read.request.Name? {
      NamedState(w.(armed := w.armed - {i}), domain, i, read.request);
    }
  }

  /** A name that is known at once leads to a connection, one that is being looked up to waiting,
      and one that cannot be resolved to a dead end. */
  predicate NamedBecomes(domain: bool, request: Request, st: SockState) {
    request.Name? &&
    var again := request.first.Refused? && request.dotted && domain;
    match if again then request.second else request.first
    case Resolved => st.Connecting?
    case InProgress => st.Dns?
    case Refused => st.Dead?
  }

  /** The answer to a lookup: found, it leads to a connection; otherwise the name is tried again with
      the domain, if it has not been and there is one. */
  lemma AnswerBecomes(w: World, domain: bool, i: nat, found: bool, second: DnsResult)
    requires Inv(w) && i in w.lookups
    ensures var w' := Next(w, domain, Answered(i, found, second));
      && i < |w'.pool|
      && (if found then w'.pool[i].state.Connecting?
          else if w.lookups[i] && domain then
            match second
            case Resolved => w'.pool[i].state.Connecting?
            case InProgress => w'.pool[i].state.Dns? && i in w'.lookups && !w'.lookups[i]
            case Refused => w'.pool[i].state.Dead?
          else w'.pool[i].state.Dead?)
  {
    assert SlotAt(w, i);
  }

  /** A new client: a SOCKS client is to authenticate; for another the name of the host of its
      listener is looked up. It gets the first free slot, and nothing if there is none. */
  lemma ClientBecomes(w: World, domain: bool, e: Event)
    requires Inv(w) && e.Accept?
    ensures w.freeList.None? ==> Next(w, domain, e) == w
    ensures w.freeList.Some? ==>
      var (w', i) := (Next(w, domain, e), w.freeList.value);
      && i < |w'.pool| && i !in w'.free && w'.pool[i].socks == e.socks
      && (if e.socks then w'.pool[i].state.SocksAuth? && i in w'.armed
          else NamedBecomes(domain, Name(e.dotted, e.first, e.second), w'.pool[i].state))
  {
    if w.freeList.Some? {
      HeadIsFree(w);
      ChainPop(w.pool, w.free);
      if !e.socks {
        NamedState(Taken(w, LocalDataCb, false), domain, w.freeList.value, Name(e.dotted, e.first, e.second));
      }
    }
  }

  lemma NamedState(w: World, domain: bool, i: nat, r: Request)
    requires i < |w.pool| && w.pool[i].tpcb.None? && r.Name?
    ensures var w' := Named(w, domain, i, r.dotted, r.first, r.second);
      |w'.pool| == |w.pool| && NamedBecomes(domain, r, w'.pool[i].state) && w'.pool[i].socks == w.pool[i].socks
      && w'.free == w.free
  {
  }

  /** When the event of a relaying slot is armed: after a sent callback on its pcb always, and
      otherwise if it was before, unless lwIP had no room when it fired. */
  lemma ArmedIff(w: World, domain: bool, e: Event, i: nat)
    requires Inv(w) && Possible(w, e) && !CutShort(w, e) && i < |w.pool| && i !in w.free && w.pool[i].state.Data?
    requires i !in Next(w, domain, e).free && !w.pool[i].cb.NoEvent? && !w.pool[i].cb.LwipDataCb?
    ensures w.pool[i].tpcb.Some?
    ensures i in Next(w, domain, e).armed <==>
      e == Sent(w.pool[i].tpcb.value) || (i in w.armed && e != Fire(i, Blocked))
  {
    assert SlotAt(w, i);
    if e.Accept? {
      if w.freeList.Some? { HeadIsFree(w); }
    } else if e.Fire? {
      FireArms(w, domain, e.i, e.read, i);
    } else if e.Answered? {
      assert SlotAt(w, e.i);
    } else {
      assert PcbAt(w, e.id);
    }
  }

  lemma FireArms(w: World, domain: bool, j: nat, read: Read, i: nat)
    requires Inv(w) && j in w.armed && i < |w.pool|
    requires i != j || (w.pool[i].state.Data? && w.pool[i].cb in {LocalDataCb, SocksCmdCb} && !read.Gone?)
    ensures i in Next(w, domain, Fire(j, read)).armed <==> i in w.armed && Fire(j, read) != Fire(i, Blocked)
  {
    assert SlotAt(w, j);
  }

  /** In every run a slot blocked for want of room is armed again by the next sent callback. */
  lemma SentResumes(ws: seq<World>, domain: bool, listeners: nat, es: seq<Event>, n: nat, i: nat)
    requires IsRun(ws, domain, listeners, es) && n + 1 < |ws| && i < |ws[n].pool| && i !in ws[n].free
    requires ws[n].pool[i].blocked && ws[n].pool[i].tpcb.Some? && es[n] == Sent(ws[n].pool[i].tpcb.value)
    ensures i !in ws[n].armed && i in ws[n + 1].armed
    ensures i < |ws[n + 1].pool| && !ws[n + 1].pool[i].blocked
  {
    assert StepAt(ws, domain, es, n);
    assert SlotAt(ws[n], i);
    assert PcbAt(ws[n], es[n].id);
  }

  predicate RefusedClient(e: Event) { e.Accept? && !e.socks && e.first.Refused? && e.second.Refused? }

  lemma RefusedStep(w: World, domain: bool, e: Event)
    requires Inv(w) && RefusedClient(e)
    ensures Inv(Next(w, domain, e))
    ensures Next(w, domain, e).used == if w.used < MAX_CONN then w.used + 1 else w.used
  {
    StepOk(w, domain, e);
    if w.freeList.Some? { HeadIsFree(w); }
  }

  /** So clients whose names cannot be resolved use the pool up, one slot each, for good. */
  lemma {:induction false} RefusedUseUp(ws: seq<World>, domain: bool, listeners: nat, es: seq<Event>, n: nat)
    requires IsRun(ws, domain, listeners, es) && n < |ws|
    requires forall k: nat | k < n :: RefusedClient(es[k])
    ensures Inv(ws[n]) && ws[n].used == if listeners + 1 + n < MAX_CONN then listeners + 1 + n else MAX_CONN
  {
    if n == 0 {
      BootedOk(listeners);
      ListeningOk(listeners);
      BindListAtStartup(seq(listeners, i requires 0 <= i => NoEvent));
      HeadIsFree(Listening(listeners));
    } else {
      assert StepAt(ws, domain, es, n - 1);
      RefusedUseUp(ws, domain, listeners, es, n - 1);
      RefusedStep(ws[n - 1], domain, es[n - 1]);
    }
  }
}
