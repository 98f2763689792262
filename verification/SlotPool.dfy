/** The pool of ocp_sock slots of the proxy (src/ocproxy.c) as a value: the slots, and who
    outside holds a pointer to one. libevent holds the armed events, lwIP the arguments of its
    pcbs, and the resolver the arguments of the lookups it has not answered. */
module SlotPool {
  import opened Basics

  const MAX_CONN: nat := 1024

  datatype SockState = New | SocksAuth | SocksCmd | Dns | Connecting | Data | Dead

  /** The callback of the slot's event. */
  datatype Callback = NoEvent | LocalDataCb | SocksCmdCb | LwipDataCb

  datatype Slot =
    Slot(next: Option<nat>, state: SockState, socks: bool, blocked: bool, cb: Callback, tpcb: Option<nat>)

  /** A live pcb: its argument, and whether it got past the handshake. */
  datatype Pcb = Pcb(arg: Option<nat>, established: bool)

  /** free is the free list that begins at freeList, and nextPcb a pcb not used so far; lookups
      maps the slot of an outstanding lookup to whether a failure will be retried. */
  datatype World = World(pool: seq<Slot>, freeList: Option<nat>, free: seq<nat>, bindList: Option<nat>, used: int,
                         max: int, armed: set<nat>, pcbs: map<nat, Pcb>, nextPcb: nat, lookups: map<nat, bool>)

  function HeadOf(list: seq<nat>): Option<nat> { if |list| == 0 then None else Some(list[0]) }

  /** Following next from the head visits these slots and then ends. */
  ghost predicate Chain(pool: seq<Slot>, head: Option<nat>, list: seq<nat>) {
    && head == HeadOf(list)
    && (forall k: nat | k < |list| :: list[k] < |pool|)
    && (forall k: nat | k < |list| :: LinkAt(pool, list, k))
  }

  ghost predicate LinkAt(pool: seq<Slot>, list: seq<nat>, k: nat)
    requires k < |list| && list[k] < |pool|
  {
    pool[list[k]].next == HeadOf(list[k + 1..])
  }

  // ---------------------------------------------------------------------------
  // The invariant between two events

  /** The free list is a list of distinct slots; with the slots in use it makes up the pool. */
  ghost predicate ListOk(w: World) {
    && |w.pool| == MAX_CONN && |w.free| + w.used == MAX_CONN && w.used <= w.max <= MAX_CONN
    && Chain(w.pool, w.freeList, w.free) && Distinct(w.free)
  }

  /** What a slot waits for. A free slot waits for nothing. A listener has no event, and that of
      the VPN socket is always armed. A slot that negotiates or relays has its event armed, unless
      lwIP has to make room first; one whose state is DNS has a lookup outstanding; one that
      connects or relays has a live pcb; and one marked dead has nothing. */
  ghost predicate SlotAt(w: World, i: nat)
    requires i < |w.pool|
  {
    var slot, armed, looked := w.pool[i], i in w.armed, i in w.lookups;
    if i in w.free then !armed && !looked
    else
      && (slot.tpcb.Some? ==> slot.tpcb.value in w.pcbs)
      && match slot.cb
         case NoEvent => !armed && !looked && slot.tpcb.None? && slot.state.New?
         case LwipDataCb => armed && !looked && slot.tpcb.None? && slot.state.New?
         case _ =>
           match slot.state
           case New => false
           case SocksAuth => armed && !looked && slot.tpcb.None? && slot.cb.SocksCmdCb? && !slot.blocked
           case SocksCmd => armed && !looked && slot.tpcb.None? && slot.cb.SocksCmdCb? && !slot.blocked
           case Dns => !armed && looked && slot.tpcb.None? && !slot.blocked
           case Connecting =>
             !armed && !looked && !slot.blocked && slot.tpcb.Some? && w.pcbs[slot.tpcb.value] == Pcb(Some(i), false)
           case Data =>
             armed != slot.blocked && !looked && slot.tpcb.Some? && w.pcbs[slot.tpcb.value] == Pcb(Some(i), true)
           case Dead => !armed && !looked && slot.tpcb.None?
  }

  /** The argument of a pcb is a slot in use that knows the pcb; it is taken away only after the
      handshake. */
  ghost predicate PcbAt(w: World, id: nat)
    requires id in w.pcbs
  {
    && id < w.nextPcb
    && match w.pcbs[id].arg
       case None => w.pcbs[id].established
       case Some(i) =>
         i < |w.pool| && i !in w.free && w.pool[i].tpcb == Some(id) && w.pool[i].cb in {LocalDataCb, SocksCmdCb}
  }

  ghost predicate Inv(w: World) {
    && ListOk(w)
    && (forall i: nat | i < |w.pool| :: SlotAt(w, i))
    && (forall id: nat | id in w.pcbs :: PcbAt(w, id))
    && (forall i: nat | i in w.armed || i in w.lookups :: i < |w.pool|)
  }

  // ---------------------------------------------------------------------------
  // What it comes to

  /** Nobody outside holds a pointer to slot i. */
  ghost predicate Unreferenced(w: World, i: nat) {
    && i !in w.armed
    && i !in w.lookups
    && (forall id: nat | id in w.pcbs :: w.pcbs[id].arg != Some(i))
  }

  /** The free list is a list of distinct slots to which nobody outside points, and together
      with the slots in use it makes up the pool. */
  ghost predicate Safe(w: World) {
    && Chain(w.pool, w.freeList, w.free) && Distinct(w.free)
    && |w.free| + w.used == MAX_CONN
    && forall i: nat | i in w.free :: Unreferenced(w, i)
  }

  lemma InvIsSafe(w: World)
    requires Inv(w)
    ensures Safe(w)
  {
    forall i: nat | i in w.free ensures Unreferenced(w, i) {
      assert SlotAt(w, i);
      forall id: nat | id in w.pcbs ensures w.pcbs[id].arg != Some(i) { assert PcbAt(w, id); }
    }
  }

  /** A slot marked dead that has not been freed. */
  predicate Lost(w: World, i: nat) { i < |w.pool| && i !in w.free && w.pool[i].state.Dead? }

  /** Of the slots in use that are not listeners, the lost ones are those nobody points to: no
      callback will ever free them. */
  lemma LostIff(w: World, i: nat)
    requires Inv(w) && i < |w.pool| && i !in w.free && !w.pool[i].cb.NoEvent?
    ensures Lost(w, i) <==> Unreferenced(w, i)
  {
    assert SlotAt(w, i);
    if Lost(w, i) {
      forall id: nat | id in w.pcbs ensures w.pcbs[id].arg != Some(i) { assert PcbAt(w, id); }
    }
  }

  // ---------------------------------------------------------------------------
  // Lists through next

  /** A slot outside a list may change. */
  lemma ChainKept(pool: seq<Slot>, head: Option<nat>, list: seq<nat>, i: nat, slot: Slot)
    requires Chain(pool, head, list) && i < |pool| && i !in list
    ensures Chain(pool[i := slot], head, list)
  {
    forall k: nat | k < |list| ensures list[k] < |pool| && LinkAt(pool[i := slot], list, k) {
      assert LinkAt(pool, list, k);
      assert list[k] in list;
    }
  }

  lemma ChainPop(pool: seq<Slot>, list: seq<nat>)
    requires |list| > 0 && Chain(pool, Some(list[0]), list) && Distinct(list)
    ensures Chain(pool, pool[list[0]].next, list[1..]) && Distinct(list[1..]) && list[0] !in list[1..]
  {
    assert LinkAt(pool, list, 0);
    forall k: nat | k < |list[1..]| ensures list[1..][k] < |pool| && LinkAt(pool, list[1..], k) {
      assert LinkAt(pool, list, k + 1);
      assert list[1..][k + 1..] == list[k + 2..];
    }
  }

  lemma ChainPush(pool: seq<Slot>, head: Option<nat>, list: seq<nat>, i: nat, slot: Slot)
    requires Chain(pool, head, list) && Distinct(list) && i < |pool| && i !in list && slot.next == head
    ensures Chain(pool[i := slot], Some(i), [i] + list) && Distinct([i] + list)
  {
    ChainKept(pool, head, list, i, slot);
    var longer := [i] + list;
    forall k: nat | k < |longer| ensures longer[k] < |pool| && LinkAt(pool[i := slot], longer, k) {
      if k > 0 { assert LinkAt(pool[i := slot], list, k - 1); }
      assert longer[k + 1..] == list[k..];
    }
  }

  // ---------------------------------------------------------------------------
  // One slot and one pcb

  /** Only slot i and pcb id differ. */
  ghost predicate OnlyAt(w: World, w': World, i: nat, id: nat) {
    && |w'.pool| == |w.pool| && w'.nextPcb >= w.nextPcb
    && (forall j: nat | j < |w.pool| && j != i :: w'.pool[j] == w.pool[j])
    && (forall j: nat | j != i :: j in w'.free <==> j in w.free)
    && (forall j: nat | j != i :: j in w'.armed <==> j in w.armed)
    && (forall j: nat | j != i :: j in w'.lookups <==> j in w.lookups)
    && (forall d: nat | d != id :: d in w'.pcbs <==> d in w.pcbs)
    && (forall d: nat | d != id && d in w.pcbs && d in w'.pcbs :: w'.pcbs[d] == w.pcbs[d])
  }

  /** These slots are lost, besides those lost before. */
  ghost predicate Loses(w: World, w': World, more: set<nat>) {
    forall j: nat :: Lost(w', j) <==> Lost(w, j) || j in more
  }

  /** If slot i and pcb id have to do with no other, what holds of them decides the invariant. */
  lemma Framed(w: World, w': World, i: nat, id: nat)
    requires Inv(w) && ListOk(w') && OnlyAt(w, w', i, id) && i < |w.pool| && !Lost(w, i)
    requires i !in w.free ==> w.pool[i].tpcb in {None, Some(id)}
    requires id in w.pcbs ==> w.pcbs[id].arg in {None, Some(i)}
    requires SlotAt(w', i) && (id in w'.pcbs ==> PcbAt(w', id))
    ensures Inv(w') && Loses(w, w', if Lost(w', i) then {i} else {})
  {
    forall j: nat | j < |w'.pool| ensures SlotAt(w', j) { assert SlotAt(w, j); }
    forall d: nat | d in w'.pcbs ensures PcbAt(w', d) { if d != id { assert PcbAt(w, d); } }
  }

  /** The same for a slot in use that stays in use. */
  lemma FramedInUse(w: World, w': World, i: nat, id: nat)
    requires Inv(w) && OnlyAt(w, w', i, id) && i < |w.pool| && !Lost(w, i)
    requires i !in w.free && w.pool[i].tpcb in {None, Some(id)}
    requires w'.free == w.free && w'.freeList == w.freeList && w'.used == w.used && w'.max == w.max
    requires id in w.pcbs ==> w.pcbs[id].arg in {None, Some(i)}
    requires SlotAt(w', i) && (id in w'.pcbs ==> PcbAt(w', id))
    ensures Inv(w') && Loses(w, w', if Lost(w', i) then {i} else {})
  {
    assert w'.pool == w.pool[i := w'.pool[i]];
    ChainKept(w.pool, w.freeList, w.free, i, w'.pool[i]);
    Framed(w, w', i, id);
  }

  // ---------------------------------------------------------------------------
  // The steps the callbacks are made of

  /** Another content for slot i. */
  function Put(w: World, i: nat, slot: Slot): World
    requires i < |w.pool|
  {
    w.(pool := w.pool[i := slot])
  }

  /** ocp_sock_new: nothing happens if there is no free slot. */
  function Taken(w: World, cb: Callback, activate: bool): World {
    if w.freeList.None? || w.freeList.value >= |w.pool| || |w.free| == 0 then w
    else
      var i := w.freeList.value;
      w.(pool := w.pool[i := Slot(w.bindList, New, false, false, cb, None)],
         freeList := w.pool[i].next, free := w.free[1..], bindList := Some(i),
         used := w.used + 1, max := if w.used + 1 > w.max then w.used + 1 else w.max,
         armed := if activate then w.armed + {i} else w.armed)
  }

  /** The head of the free list is a free slot to which nobody points. */
  lemma HeadIsFree(w: World)
    requires Inv(w) && w.freeList.Some?
    ensures |w.free| > 0 && w.freeList.value == w.free[0] < |w.pool| && Unreferenced(w, w.free[0])
    ensures !Lost(w, w.free[0])
  {
    InvIsSafe(w);
  }

  /** The frame of a step that takes slot i, although that then links the bind list. */
  lemma FramedTaken(w: World, w': World, i: nat)
    requires Inv(w) && w.freeList == Some(i) && OnlyAt(w, w'.(free := w.free), i, w.nextPcb) && |w.free| > 0
    requires i < |w.pool| && w'.free == w.free[1..] && w'.freeList == w.pool[i].next
    requires w'.used == w.used + 1 && w'.max == if w'.used > w.max then w'.used else w.max
    requires i !in w'.free ==> SlotAt(w', i) && (w.nextPcb in w'.pcbs ==> PcbAt(w', w.nextPcb))
    ensures Inv(w') && Loses(w, w', if Lost(w', i) then {i} else {})
  {
    HeadIsFree(w);
    ChainPop(w.pool, w.free);
    assert w'.pool == w.pool[i := w'.pool[i]];
    ChainKept(w.pool, w.pool[i].next, w.free[1..], i, w'.pool[i]);
    assert w.free == [i] + w'.free;
    Framed(w, w', i, w.nextPcb);
  }

  /** ocp_sock_del: a slot that waits for the resolver is only marked. The pcb of a freed slot
      goes at once if it was still connecting, and otherwise may stay on without an argument. */
  function Deleted(w: World, i: nat, stays: bool): World
    requires i < |w.pool| && (w.pool[i].tpcb.Some? ==> w.pool[i].tpcb.value in w.pcbs)
  {
    if w.pool[i].state.Dns? then Put(w, i, w.pool[i].(state := Dead)) else Freed(w, i, stays)
  }

  function Freed(w: World, i: nat, stays: bool): World
    requires i < |w.pool| && (w.pool[i].tpcb.Some? ==> w.pool[i].tpcb.value in w.pcbs)
  {
    w.(pool := w.pool[i := Slot(w.freeList, Dead, false, false, NoEvent, None)],
       freeList := Some(i), free := [i] + w.free, used := w.used - 1, armed := w.armed - {i},
       pcbs := match w.pool[i].tpcb
               case None => w.pcbs
               case Some(id) =>
                 if stays && w.pcbs[id].established then w.pcbs[id := Pcb(None, true)] else w.pcbs - {id})
  }

  /** Freeing a slot that has no lookup keeps the invariant: nothing points to it afterwards. */
  lemma FreedOk(w: World, i: nat, stays: bool)
    requires Inv(w) && i < |w.pool| && i !in w.free && i !in w.lookups && !Lost(w, i)
    ensures w.pool[i].tpcb.Some? ==> w.pool[i].tpcb.value in w.pcbs
    ensures Inv(Freed(w, i, stays)) && Unreferenced(Freed(w, i, stays), i) && Loses(w, Freed(w, i, stays), {})
  {
    assert SlotAt(w, i);
    var w' := Freed(w, i, stays);
    FreedList(w, w', i);
    Framed(w, w', i, if w.pool[i].tpcb.Some? then w.pool[i].tpcb.value else w.nextPcb);
    InvIsSafe(w');
  }

  lemma FreedList(w: World, w': World, i: nat)
    requires Inv(w) && i < |w.pool| && i !in w.free
    requires |w'.pool| == |w.pool| && w'.pool == w.pool[i := w'.pool[i]]
    requires w'.pool[i].next == w.freeList && w'.freeList == Some(i)
    requires w'.free == [i] + w.free && w'.used == w.used - 1 && w'.max == w.max
    ensures ListOk(w')
  {
    ChainPush(w.pool, w.freeList, w.free, i, w'.pool[i]);
  }

  /** start_connection: a new pcb whose argument is the slot. */
  function Connected(w: World, i: nat): World
    requires i < |w.pool|
  {
    Put(w, i, w.pool[i].(state := Connecting, tpcb := Some(w.nextPcb)))
      .(pcbs := w.pcbs[w.nextPcb := Pcb(Some(i), false)], nextPcb := w.nextPcb + 1)
  }

  // ---------------------------------------------------------------------------
  // Startup

  /** The slots from i on, in order. */
  function From(i: nat): seq<nat>
    requires i <= MAX_CONN
  {
    seq(MAX_CONN - i, k requires 0 <= k => i + k)
  }

  /** The pool as main() links it. */
  function Linked(i: nat): Slot {
    Slot(if i + 1 < MAX_CONN then Some(i + 1) else None, New, false, false, NoEvent, None)
  }

  function Boot(): World {
    World(seq(MAX_CONN, i requires 0 <= i => Linked(i)), Some(0), From(0), None, 0, 0, {}, map[], 0, map[])
  }

  lemma BootOk()
    ensures Inv(Boot()) && forall i: nat :: !Lost(Boot(), i)
  {
    var w := Boot();
    forall k: nat | k < |w.free| ensures w.free[k] < |w.pool| && LinkAt(w.pool, w.free, k) { }
    forall i: nat | i < |w.pool| ensures SlotAt(w, i) { assert w.free[i] == i; }
  }

  /** The world once main() has made these slots and nothing has been released. */
  function Started(w: World, cbs: seq<Callback>): World {
    if |cbs| == 0 then w else Taken(Started(w, cbs[..|cbs| - 1]), cbs[|cbs| - 1], false)
  }

  /** The slots below n, last first. */
  function Down(n: nat): seq<nat> { if n == 0 then [] else [n - 1] + Down(n - 1) }

  lemma {:induction false} DownIn(n: nat)
    ensures |Down(n)| == n && (forall i: nat :: i in Down(n) <==> i < n) && Distinct(Down(n))
  {
    if n > 0 {
      DownIn(n - 1);
      forall j: nat, k: nat | j < k < n ensures Down(n)[j] != Down(n)[k] {
        assert Down(n)[k] == Down(n - 1)[k - 1] && Down(n - 1)[k - 1] in Down(n - 1);
        if j > 0 { assert Down(n)[j] == Down(n - 1)[j - 1]; }
      }
    }
  }

  /** Until a slot is released, the bind list holds every slot in use, once, and the free list
      the others, although both run through next. */
  lemma {:induction false} BindListAtStartup(cbs: seq<Callback>)
    requires |cbs| <= MAX_CONN
    ensures var w := Started(Boot(), cbs);
      && |w.pool| == MAX_CONN && w.used == |cbs| && w.free == From(|cbs|)
      && Chain(w.pool, w.bindList, Down(|cbs|)) && Chain(w.pool, w.freeList, w.free)
      && forall i: nat | i < |cbs| :: w.pool[i].cb == cbs[i]
    decreases |cbs|
  {
    var n := |cbs|;
    if n == 0 {
      BootOk();
    } else {
      BindListAtStartup(cbs[..n - 1]);
      StartOne(Started(Boot(), cbs[..n - 1]), n - 1, cbs[n - 1]);
    }
  }

  lemma StartOne(v: World, n: nat, cb: Callback)
    requires |v.pool| == MAX_CONN && n < MAX_CONN && v.free == From(n)
    requires Chain(v.pool, v.bindList, Down(n)) && Chain(v.pool, v.freeList, v.free)
    ensures v.freeList == Some(n)
    ensures var w := Taken(v, cb, false);
            w.free == From(n + 1) && Chain(w.pool, w.bindList, Down(n + 1)) && Chain(w.pool, w.freeList, w.free)
  {
    var w := Taken(v, cb, false);
    DownIn(n);
    ChainPush(v.pool, v.bindList, Down(n), n, w.pool[n]);
    assert From(n)[1..] == From(n + 1);
    ChainPop(v.pool, From(n));
    ChainKept(v.pool, v.pool[n].next, From(n + 1), n, w.pool[n]);
  }

  /** A listener or the VPN socket takes a slot. */
  lemma TakenOk(w: World, cb: Callback)
    requires Inv(w) && w.freeList.Some? && cb in {NoEvent, LwipDataCb}
    ensures Inv(Taken(w, cb, cb.LwipDataCb?)) && Loses(w, Taken(w, cb, cb.LwipDataCb?), {})
  {
    HeadIsFree(w);
    FramedTaken(w, Taken(w, cb, cb.LwipDataCb?), w.free[0]);
  }

  function Listening(n: nat): World { Started(Boot(), seq(n, i requires 0 <= i => NoEvent)) }

  /** main(): the listeners, then the VPN socket, whose event is armed. */
  function Booted(listeners: nat): World { Taken(Listening(listeners), LwipDataCb, true) }

  lemma OneMoreListener(n: nat)
    ensures Listening(n + 1) == Taken(Listening(n), NoEvent, false)
  {
    assert seq(n + 1, i requires 0 <= i => NoEvent)[..n] == seq(n, i requires 0 <= i => NoEvent);
  }

  lemma {:induction false} ListeningOk(n: nat)
    requires n <= MAX_CONN
    ensures Inv(Listening(n)) && (Listening(n).freeList.Some? <==> n < MAX_CONN)
    ensures forall i: nat :: !Lost(Listening(n), i)
  {
    SlotsLeft(n);
    if n == 0 {
      BootOk();
    } else {
      ListeningOk(n - 1);
      OneMoreListener(n - 1);
      TakenOk(Listening(n - 1), NoEvent);
    }
  }

  lemma SlotsLeft(n: nat)
    requires n <= MAX_CONN
    ensures Listening(n).freeList.Some? <==> n < MAX_CONN
  {
    BindListAtStartup(seq(n, i requires 0 <= i => NoEvent));
  }

  lemma BootedOk(listeners: nat)
    requires listeners < MAX_CONN
    ensures Inv(Booted(listeners)) && forall i: nat :: !Lost(Booted(listeners), i)
  {
    ListeningOk(listeners);
    TakenOk(Listening(listeners), LwipDataCb);
  }
}
