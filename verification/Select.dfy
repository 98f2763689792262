/** lwip_select and event_callback (lwip/src/api/sockets.c) as an interleaving system.

    A step is one region between SYS_ARCH_PROTECT and SYS_ARCH_UNPROTECT, or one wait on
    a waiter's semaphore.  Selecting threads link an entry into a doubly linked list and
    scan their sockets twice; a callback walks the list, releases the lock after every
    entry and starts over when the change counter has moved. */
module Select {
  import opened Basics

  type Tid = nat       // a selecting thread, and the list entry on its stack
  type Cid = nat       // an invocation of event_callback
  type Fd = nat

  datatype Sock = Sock(rcv: int, send: bool, err: bool)

  datatype Event = RcvPlus | RcvMinus | SendPlus | SendMinus | Error

  /** The arguments of a select call; `poll` is a timeout of zero. */
  datatype Want = Want(n: nat, rd: set<Fd>, wr: set<Fd>, ex: set<Fd>, poll: bool)

  /** sem_signalled and the semaphore of an entry: its counter, whether it exists, and
      how often sys_sem_signal was called on it. */
  datatype Bell = Bell(signalled: bool, sem: nat, live: bool, signals: nat)

  /** The sets a scan or a call comes back with. */
  datatype Hits = Hits(rd: set<Fd>, wr: set<Fd>, ex: set<Fd>)

  const NOTHING := Hits({}, {}, {})

  /** Out holds what the last call returned; `late` means that the wait timed out. */
  datatype PC =
    | Out(found: Hits)
    | Scan1(i: nat, hits: Hits)
    | Enroll                       // semaphore created, not yet linked
    | Count(i: nat)                // linked, counting itself into sockets from i on
    | Scan2(i: nat, hits: Hits)
    | Asleep
    | Uncount(i: nat, late: bool)  // counting itself out of sockets from i on
    | Unlink(late: bool)
    | FreeSem(late: bool)
    | Scan3(i: nat, hits: Hits)

  /** Where a callback stands: it has just treated entry `cur` for socket `k` and has
      remembered the change counter. */
  datatype Walker = Done | Walk(k: Fd, cur: Tid, ctr: nat)

  /** An entry is spread over `next`, `prev`, `want` and `bell`; `waiting` holds the
      sockets' select_waiting.  `order` lists the linked entries from the head; no
      step reads it. */
  datatype State = State(socks: seq<Sock>, waiting: seq<int>,
                         head: Option<Tid>, next: seq<Option<Tid>>, prev: seq<Option<Tid>>, ctr: nat,
                         want: seq<Want>, bell: seq<Bell>,
                         pc: seq<PC>, walker: seq<Walker>, order: seq<Tid>)
  {
    function To(t: Tid, p: PC): State
      requires t < |pc|
    { this.(pc := pc[t := p]) }
    function WalkerTo(c: Cid, w: Walker): State
      requires c < |walker|
    { this.(walker := walker[c := w]) }
    predicate Shaped() {
      |next| == |prev| == |want| == |bell| == |pc| && |waiting| == |socks|
    }
  }

  /** The sockets a select call counts itself into and scans. */
  predicate Watches(w: Want, k: Fd) { k < w.n && (k in w.rd || k in w.wr || k in w.ex) }

  /** The test of event_callback, which does not look at maxfdp1. */
  predicate Matches(so: Sock, w: Want, k: Fd) {
    (so.rcv > 0 && k in w.rd) || (so.send && k in w.wr) || (so.err && k in w.ex)
  }

  /** An event on socket k that the call waits for. */
  predicate Ready(s: State, w: Want, k: Fd) { k < |s.socks| && Matches(s.socks[k], w, k) }

  /** One turn of lwip_selscan, lastdata apart. */
  function Note(s: State, w: Want, k: Fd, h: Hits): Hits {
    if k >= |s.socks| then h
    else Hits(if k in w.rd && s.socks[k].rcv > 0 then h.rd + {k} else h.rd,
              if k in w.wr && s.socks[k].send then h.wr + {k} else h.wr,
              if k in w.ex && s.socks[k].err then h.ex + {k} else h.ex)
  }

  // ---------------------------------------------------------------------------
  // Steps of a selecting thread

  datatype Action = CallSelect(want: Want) | Go | Timeout

  /** A call may only name sockets that exist. */
  predicate Enabled(s: State, t: Tid, a: Action) {
    && s.Shaped() && t < |s.pc|
    && (s.pc[t].Out? <==> a.CallSelect?)
    && (a.Timeout? ==> s.pc[t].Asleep?)
    && (s.pc[t].Asleep? && a.Go? ==> s.bell[t].sem > 0)
    && (a.CallSelect? ==> forall k | 0 <= k < a.want.n :: Watches(a.want, k) ==> k < |s.socks|)
  }

  /** select_waiting of socket k changes by d if the call watches it. */
  function Adjust(s: State, w: Want, k: Fd, d: int): State {
    if Watches(w, k) && k < |s.waiting| then s.(waiting := s.waiting[k := s.waiting[k] + d]) else s
  }

  /** Stores through a list pointer; a null pointer is not followed. */
  function Store(m: seq<Option<Tid>>, p: Option<Tid>, v: Option<Tid>): seq<Option<Tid>> {
    if p.Some? && p.value < |m| then m[p.value := v] else m
  }

  function Link(s: State, t: Tid): State
    requires t < |s.next|
  {
    s.(next := s.next[t := s.head], prev := Store(s.prev, s.head, Some(t)),
       head := Some(t), ctr := s.ctr + 1, order := [t] + s.order)
  }

  function Without(q: seq<Tid>, t: Tid): seq<Tid> {
    if q == [] then [] else if q[0] == t then q[1..] else [q[0]] + Without(q[1..], t)
  }

  function Remove(s: State, t: Tid): State
    requires t < |s.next| && t < |s.prev|
  {
    var (n, p) := (s.next[t], s.prev[t]);
    s.(prev := Store(s.prev, n, p),
       next := if s.head == Some(t) then s.next else Store(s.next, p, n),
       head := if s.head == Some(t) then n else s.head,
       ctr := s.ctr + 1, order := Without(s.order, t))
  }

  function Step(s: State, t: Tid, a: Action): State
    requires Enabled(s, t, a)
  {
    var w := s.want[t];
    match s.pc[t]
    case Out(_) =>
      s.(want := s.want[t := a.want], next := s.next[t := None], prev := s.prev[t := None],
         bell := s.bell[t := Bell(false, 0, false, 0)]).To(t, Scan1(0, NOTHING))
    case Scan1(i, hits) =>
      if i < w.n then s.To(t, Scan1(i + 1, Note(s, w, i, hits)))
      else if hits != NOTHING || w.poll then s.To(t, Out(hits))
      else s.(bell := s.bell[t := s.bell[t].(live := true)]).To(t, Enroll)
    case Enroll => Link(s, t).To(t, Count(0))
    case Count(i) =>
      if i < w.n then Adjust(s, w, i, 1).To(t, Count(i + 1)) else s.To(t, Scan2(0, NOTHING))
    case Scan2(i, hits) =>
      if i < w.n then s.To(t, Scan2(i + 1, Note(s, w, i, hits)))
      else s.To(t, if hits != NOTHING then Uncount(0, false) else Asleep)
    case Asleep =>
      if a.Timeout? then s.To(t, Uncount(0, true))
      else s.(bell := s.bell[t := s.bell[t].(sem := s.bell[t].sem - 1)]).To(t, Uncount(0, false))
    case Uncount(i, late) =>
      if i < w.n then Adjust(s, w, i, -1).To(t, Uncount(i + 1, late)) else s.To(t, Unlink(late))
    case Unlink(late) => Remove(s, t).To(t, FreeSem(late))
    case FreeSem(late) =>
      s.(bell := s.bell[t := s.bell[t].(live := false)]).To(t, if late then Out(NOTHING) else Scan3(0, NOTHING))
    case Scan3(i, hits) => s.To(t, if i < w.n then Scan3(i + 1, Note(s, w, i, hits)) else Out(hits))
  }

  // ---------------------------------------------------------------------------
  // Steps of a callback

  function Apply(so: Sock, ev: Event): Sock {
    match ev
    case RcvPlus => so.(rcv := so.rcv + 1)
    case RcvMinus => so.(rcv := so.rcv - 1)
    case SendPlus => so.(send := true)
    case SendMinus => so.(send := false)
    case Error => so.(err := true)
  }

  /** Treats one entry: signal it once if socket k has an event it wants. */
  function Visit(s: State, k: Fd, t: Tid): State
    requires k < |s.socks| && t < |s.bell| && t < |s.want|
  {
    if !s.bell[t].signalled && Matches(s.socks[k], s.want[t], k) then
      s.(bell := s.bell[t := s.bell[t].(signalled := true, sem := 1, signals := s.bell[t].signals + 1)])
    else s
  }

  /** Goes on at `target`: the end of the list ends the walk. */
  function Arrive(s: State, c: Cid, k: Fd, target: Option<Tid>): State
    requires k < |s.socks| && s.Shaped() && c < |s.walker|
  {
    if target.Some? && target.value < |s.pc| then
      Visit(s, k, target.value).WalkerTo(c, Walk(k, target.value, s.ctr))
    else s.WalkerTo(c, Done)
  }

  /** The entry the walk goes to next: the head again if the list has changed. */
  function Target(s: State, w: Walker): Option<Tid>
    requires w.Walk?
  {
    if w.ctr != s.ctr then s.head
    else if w.cur < |s.next| then s.next[w.cur]
    else None
  }

  predicate EventEnabled(s: State, c: Cid, k: Fd) {
    s.Shaped() && c < |s.walker| && s.walker[c].Done? && k < |s.socks|
  }

  function EventStep(s: State, c: Cid, k: Fd, ev: Event): State
    requires EventEnabled(s, c, k)
  {
    var s1 := s.(socks := s.socks[k := Apply(s.socks[k], ev)]);
    if s.waiting[k] == 0 then s1 else Arrive(s1, c, k, s.head)
  }

  predicate WalkEnabled(s: State, c: Cid) {
    s.Shaped() && c < |s.walker| && s.walker[c].Walk? && s.walker[c].k < |s.socks|
  }

  function WalkStep(s: State, c: Cid): State
    requires WalkEnabled(s, c)
  {
    Arrive(s, c, s.walker[c].k, Target(s, s.walker[c]))
  }

  // ---------------------------------------------------------------------------
  // Runs

  ghost predicate Init(s: State) {
    && s.Shaped() && s.head == None && s.order == []
    && (forall t | 0 <= t < |s.pc| :: s.pc[t].Out?)
    && (forall c | 0 <= c < |s.walker| :: s.walker[c] == Done)
    && (forall k | 0 <= k < |s.waiting| :: s.waiting[k] == 0)
  }

  ghost predicate SelectMoves(s: State, s': State) {
    exists t, a :: Enabled(s, t, a) && s' == Step(s, t, a)
  }

  ghost predicate EventArrives(s: State, s': State) {
    exists c, k, ev :: EventEnabled(s, c, k) && s' == EventStep(s, c, k, ev)
  }

  ghost predicate WalkMoves(s: State, s': State) {
    exists c :: WalkEnabled(s, c) && s' == WalkStep(s, c)
  }

  ghost predicate Next(s: State, s': State) {
    SelectMoves(s, s') || EventArrives(s, s') || WalkMoves(s, s')
  }

  ghost predicate Run(r: seq<State>) {
    |r| > 0 && Init(r[0]) && forall i | 0 < i < |r| :: StepTo(r, i)
  }

  ghost predicate StepTo(r: seq<State>, i: nat)
    requires 0 < i < |r|
  {
    Next(r[i - 1], r[i])
  }

  // ---------------------------------------------------------------------------
  // The list

  predicate Linked(p: PC) { p.Count? || p.Scan2? || p.Asleep? || p.Uncount? || p.Unlink? }

  function At(q: seq<Tid>, i: int): Option<Tid> { if 0 <= i < |q| then Some(q[i]) else None }

  /** The i-th entry points at its neighbours. */
  predicate Spliced(s: State, i: nat)
    requires i < |s.order|
  {
    var t := s.order[i];
    t < |s.next| && t < |s.prev| && s.next[t] == At(s.order, i + 1) && s.prev[t] == At(s.order, i - 1)
  }

  /** The entries on the list are exactly those of the threads between linking and
      unlinking, each once, and the pointers of both directions spell `order`. */
  ghost predicate ListOk(s: State) {
    && s.Shaped()
    && s.head == At(s.order, 0)
    && Distinct(s.order)
    && (forall i | 0 <= i < |s.order| :: Spliced(s, i))
    && (forall t | t in s.order :: t < |s.pc|)
    && (forall t | 0 <= t < |s.pc| :: Linked(s.pc[t]) <==> t in s.order)
    && (forall t | 0 <= t < |s.pc| && (s.pc[t].Enroll? || s.pc[t].Scan1?) :: s.prev[t] == None)
  }

  lemma ListKept(s: State, s': State, t: Tid)
    requires ListOk(s) && s'.Shaped() && t < |s.pc|
    requires s'.head == s.head && s'.order == s.order
    requires t < |s'.pc| && s'.pc == s.pc[t := s'.pc[t]] && Linked(s'.pc[t]) == Linked(s.pc[t])
    requires forall u | 0 <= u < |s.pc| && (u != t || Linked(s.pc[u])) ::
               s'.next[u] == s.next[u] && s'.prev[u] == s.prev[u]
    requires s'.pc[t].Enroll? || s'.pc[t].Scan1? ==> s'.prev[t] == None
    ensures ListOk(s')
  {
    forall i | 0 <= i < |s.order| ensures Spliced(s', i) {
      assert Spliced(s, i) && s.order[i] in s.order;
    }
  }

  lemma LinkOk(s: State, t: Tid)
    requires ListOk(s) && t < |s.pc| && s.pc[t].Enroll?
    ensures ListOk(Link(s, t).To(t, Count(0)))
  {
    var s' := Link(s, t).To(t, Count(0));
    assert t !in s.order;
    forall i | 0 <= i < |s'.order| ensures Spliced(s', i) {
      if i > 0 {
        assert s'.order[i] == s.order[i - 1] && Spliced(s, i - 1);
        assert i > 1 ==> s.order[i - 1] != s.order[0];
      }
    }
    forall u | 0 <= u < |s'.pc| ensures Linked(s'.pc[u]) <==> u in s'.order {
      assert u in s'.order <==> u == t || u in s.order;
    }
  }

  lemma {:induction false} WithoutAt(q: seq<Tid>, i: nat)
    requires i < |q| && Distinct(q)
    ensures Without(q, q[i]) == q[..i] + q[i + 1..]
  {
    if i > 0 {
      assert q[0] != q[i] && q[1..][i - 1] == q[i];
      WithoutAt(q[1..], i - 1);
      assert [q[0]] + (q[1..][..i - 1] + q[1..][i..]) == q[..i] + q[i + 1..];
    } else {
      assert q[..0] + q[1..] == q[1..];
    }
  }

  lemma WithoutDistinct(p: seq<Tid>, q: seq<Tid>, j: nat)
    requires j < |p| && Distinct(p) && q == p[..j] + p[j + 1..]
    ensures Distinct(q)
    ensures forall u :: u in q <==> u in p && u != p[j]
  {
    forall u | u in p && u != p[j] ensures u in q {
      var i :| 0 <= i < |p| && p[i] == u;
      assert q[if i < j then i else i - 1] == u;
    }
  }

  lemma GapNeighbours(o: seq<Tid>, q: seq<Tid>, j: nat, i: nat)
    requires j < |o| && q == o[..j] + o[j + 1..] && i < |q|
    ensures var m := if i < j then i else i + 1;
      && q[i] == o[m]
      && At(q, i + 1) == (if m == j - 1 then At(o, j + 1) else At(o, m + 1))
      && At(q, i - 1) == (if m == j + 1 then At(o, j - 1) else At(o, m - 1))
  {
  }

  /** Unlinking the j-th entry joins its two neighbours in both directions; the m-th stays. */
  lemma RemoveLinks(s: State, t: Tid, j: nat, m: nat)
    requires ListOk(s) && t < |s.pc| && j < |s.order| && s.order[j] == t && m < |s.order| && m != j
    ensures var (o, s') := (s.order, Remove(s, t));
      && o[m] < |s'.next| && o[m] < |s'.prev|
      && s'.next[o[m]] == (if m == j - 1 then At(o, j + 1) else At(o, m + 1))
      && s'.prev[o[m]] == (if m == j + 1 then At(o, j - 1) else At(o, m - 1))
  {
    var o := s.order;
    assert Spliced(s, m) && Spliced(s, j);
    assert o[m] != o[j];
    assert s.next[t] == Some(o[m]) <==> m == j + 1;
    assert s.prev[t] == Some(o[m]) <==> m == j - 1;
    assert s.head == Some(t) <==> j == 0;
  }

  lemma RemoveSplices(s: State, s': State, t: Tid, j: nat, i: nat)
    requires ListOk(s) && t < |s.pc| && j < |s.order| && s.order[j] == t && s' == Remove(s, t)
    requires s'.order == s.order[..j] + s.order[j + 1..] && i < |s'.order|
    ensures Spliced(s', i)
  {
    RemoveLinks(s, t, j, if i < j then i else i + 1);
    JoinedAt(s.order, s', j, i);
  }

  lemma JoinedAt(o: seq<Tid>, s': State, j: nat, i: nat)
    requires j < |o| && s'.order == o[..j] + o[j + 1..] && i < |s'.order|
    requires var m := if i < j then i else i + 1;
      && o[m] < |s'.next| && o[m] < |s'.prev|
      && s'.next[o[m]] == (if m == j - 1 then At(o, j + 1) else At(o, m + 1))
      && s'.prev[o[m]] == (if m == j + 1 then At(o, j - 1) else At(o, m - 1))
    ensures Spliced(s', i)
  {
    GapNeighbours(o, s'.order, j, i);
  }

  /** What unlinking means for the bare sequence. */
  lemma WithoutFacts(q: seq<Tid>, j: nat)
    requires j < |q| && Distinct(q)
    ensures var w := Without(q, q[j]);
      && w == q[..j] + q[j + 1..] && Distinct(w)
      && At(w, 0) == (if j == 0 then At(q, 1) else At(q, 0))
      && forall u :: u in w <==> u in q && u != q[j]
  {
    WithoutAt(q, j);
    WithoutDistinct(q, Without(q, q[j]), j);
  }

  lemma RemoveHead(s: State, t: Tid, j: nat)
    requires ListOk(s) && t < |s.pc| && j < |s.order| && s.order[j] == t
    ensures Remove(s, t).head == (if j == 0 then At(s.order, 1) else At(s.order, 0))
  {
    assert Spliced(s, j);
    assert j > 0 ==> s.order[0] != s.order[j];
  }

  lemma RemovePrev(s: State, t: Tid, j: nat, u: Tid)
    requires ListOk(s) && t < |s.pc| && j < |s.order| && s.order[j] == t && u < |s.pc| && u !in s.order
    ensures Remove(s, t).prev[u] == s.prev[u]
  {
    assert Spliced(s, j);
    assert j + 1 < |s.order| ==> s.order[j + 1] in s.order;
  }

  lemma RemovedList(s: State, s': State, t: Tid, j: nat)
    requires ListOk(s) && t < |s.pc| && s.pc[t].Unlink? && j < |s.order| && s.order[j] == t
    requires s'.Shaped() && s'.pc == s.pc[t := FreeSem(s.pc[t].late)]
    requires s'.order == Without(s.order, t)
    requires s'.head == if j == 0 then At(s.order, 1) else At(s.order, 0)
    requires forall i | 0 <= i < |s'.order| :: Spliced(s', i)
    requires forall u | 0 <= u < |s.pc| && u !in s.order :: s'.prev[u] == s.prev[u]
    ensures ListOk(s')
  {
    WithoutFacts(s.order, j);
  }

  lemma RemoveOk(s: State, t: Tid)
    requires ListOk(s) && t < |s.pc| && s.pc[t].Unlink?
    ensures ListOk(Remove(s, t).To(t, FreeSem(s.pc[t].late)))
  {
    var s' := Remove(s, t).To(t, FreeSem(s.pc[t].late));
    assert t in s.order;
    var j :| 0 <= j < |s.order| && s.order[j] == t;
    RemoveHead(s, t, j);
    WithoutAt(s.order, j);
    forall i | 0 <= i < |s'.order| ensures Spliced(s', i) {
      RemoveSplices(s, Remove(s, t), t, j, i);
      assert Spliced(Remove(s, t), i);
    }
    forall u | 0 <= u < |s.pc| && u !in s.order ensures s'.prev[u] == s.prev[u] {
      RemovePrev(s, t, j, u);
    }
    RemovedList(s, s', t, j);
  }

  lemma ListStep(s: State, t: Tid, a: Action)
    requires Enabled(s, t, a) && ListOk(s)
    ensures ListOk(Step(s, t, a))
  {
    if s.pc[t].Enroll? {
      LinkOk(s, t);
    } else if s.pc[t].Unlink? {
      RemoveOk(s, t);
    } else {
      StepPc(s, t, a);
      StepFrame(s, t, a);
      StepLinks(s, t, a);
      ListKept(s, Step(s, t, a), t);
    }
  }

  // ---------------------------------------------------------------------------
  // select_waiting, the walkers and the semaphores

  predicate Holds(p: PC, w: Want, k: Fd) {
    Watches(w, k) && ((p.Count? && k < p.i) || p.Scan2? || p.Asleep? || (p.Uncount? && k >= p.i))
  }

  ghost function Holders(s: State, k: Fd): set<Tid> {
    set t | 0 <= t < |s.pc| && t < |s.want| && Holds(s.pc[t], s.want[t], k)
  }

  /** select_waiting of a socket is the number of threads registered on it. */
  ghost predicate Tally(s: State) {
    && (forall k | 0 <= k < |s.waiting| :: s.waiting[k] == |Holders(s, k)|)
    && (forall t: Tid, k: Fd | t < |s.pc| && t < |s.want| && !s.pc[t].Out? && Watches(s.want[t], k) :: k < |s.socks|)
  }

  ghost predicate WalkersOk(s: State) {
    forall c | 0 <= c < |s.walker| && s.walker[c].Walk? ::
      && s.walker[c].k < |s.socks|
      && s.walker[c].ctr <= s.ctr
      && (s.walker[c].ctr == s.ctr ==> s.walker[c].cur in s.order)
  }

  predicate SemOk(p: PC, b: Bell) {
    && (p.Enroll? || p.FreeSem? || Linked(p) ==> b.live)
    && b.sem <= 1
    && (p.Scan1? || p.Enroll? || p.Count? || p.Scan2? || p.Asleep? ==> b.sem == if b.signalled then 1 else 0)
    && b.signals == if b.signalled then 1 else 0
  }

  ghost predicate SemsOk(s: State) {
    forall t | 0 <= t < |s.pc| && t < |s.bell| && !s.pc[t].Out? :: SemOk(s.pc[t], s.bell[t])
  }

  /** The parts of the state a selecting thread's step leaves alone. */
  lemma StepPc(s: State, t: Tid, a: Action)
    requires Enabled(s, t, a)
    ensures var s' := Step(s, t, a); t < |s'.pc| && s'.pc == s.pc[t := s'.pc[t]]
  {
  }

  lemma StepFrame(s: State, t: Tid, a: Action)
    requires Enabled(s, t, a)
    ensures var s' := Step(s, t, a);
      && s'.Shaped() && s'.socks == s.socks && s'.walker == s.walker
      && s'.ctr == (if s.pc[t].Enroll? || s.pc[t].Unlink? then s.ctr + 1 else s.ctr)
  {
  }

  lemma StepOthers(s: State, t: Tid, a: Action, u: Tid)
    requires Enabled(s, t, a) && u < |s.pc|
    ensures var s' := Step(s, t, a);
      && u < |s'.want| && u < |s'.bell|
      && (u != t || !s.pc[t].Out? ==> s'.want[u] == s.want[u])
      && (u != t ==> s'.bell[u] == s.bell[u])
  {
  }

  lemma StepLinks(s: State, t: Tid, a: Action)
    requires Enabled(s, t, a) && !s.pc[t].Enroll? && !s.pc[t].Unlink?
    ensures var s' := Step(s, t, a);
      && t < |s'.next| && t < |s'.prev| && s'.order == s.order && s'.head == s.head
      && s'.next[t := s.next[t]] == s.next && s'.prev[t := s.prev[t]] == s.prev
  {
  }

  function Bit(b: bool): int { if b then 1 else 0 }

  lemma StepCounts(s: State, t: Tid, a: Action, k: Fd)
    requires Enabled(s, t, a) && k < |s.waiting|
    ensures var s' := Step(s, t, a);
      && k < |s'.waiting| && t < |s'.want| && t < |s'.pc|
      && s'.waiting[k] - s.waiting[k] == Bit(Holds(s'.pc[t], s'.want[t], k)) - Bit(Holds(s.pc[t], s.want[t], k))
  {
    if s.pc[t].Count? || s.pc[t].Uncount? {
    } else {
      StepOthers(s, t, a, t);
      assert Step(s, t, a).waiting == s.waiting;
    }
  }

  lemma TallyKept(s: State, s': State, t: Tid)
    requires Tally(s) && s.Shaped() && s'.Shaped() && t < |s.pc|
    requires t < |s'.pc| && s'.pc == s.pc[t := s'.pc[t]]
    requires forall u | 0 <= u < |s.pc| && u != t :: s'.want[u] == s.want[u]
    requires |s'.socks| == |s.socks|
    requires forall k | 0 <= k < |s.waiting| ::
      s'.waiting[k] - s.waiting[k] == Bit(Holds(s'.pc[t], s'.want[t], k)) - Bit(Holds(s.pc[t], s.want[t], k))
    requires forall k: Fd | !s'.pc[t].Out? && Watches(s'.want[t], k) :: k < |s.socks|
    ensures Tally(s')
  {
    forall k | 0 <= k < |s'.waiting| ensures s'.waiting[k] == |Holders(s', k)| {
      if Holds(s'.pc[t], s'.want[t], k) {
        assert Holders(s', k) == Holders(s, k) + {t};
      } else {
        assert Holders(s', k) == Holders(s, k) - {t};
      }
    }
  }

  lemma TallyStep(s: State, t: Tid, a: Action)
    requires Enabled(s, t, a) && Tally(s)
    ensures Tally(Step(s, t, a))
  {
    var s' := Step(s, t, a);
    StepPc(s, t, a);
    StepFrame(s, t, a);
    forall k | 0 <= k < |s.waiting|
      ensures s'.waiting[k] - s.waiting[k] == Bit(Holds(s'.pc[t], s'.want[t], k)) - Bit(Holds(s.pc[t], s.want[t], k))
    {
      StepCounts(s, t, a, k);
    }
    forall u | 0 <= u < |s.pc| && (u != t || !s.pc[t].Out?) ensures s'.want[u] == s.want[u] { StepOthers(s, t, a, u); }
    TallyKept(s, s', t);
  }

  lemma SemsStep(s: State, t: Tid, a: Action)
    requires Enabled(s, t, a) && SemsOk(s)
    ensures SemsOk(Step(s, t, a))
  {
    StepPc(s, t, a);
    StepFrame(s, t, a);
    var s' := Step(s, t, a);
    assert s'.pc[t].Out? || SemOk(s'.pc[t], s'.bell[t]);
    forall u | 0 <= u < |s'.pc| && u != t && !s'.pc[u].Out? ensures SemOk(s'.pc[u], s'.bell[u]) {
      StepOthers(s, t, a, u);
    }
  }

  lemma WalkersStep(s: State, t: Tid, a: Action)
    requires Enabled(s, t, a) && WalkersOk(s)
    ensures WalkersOk(Step(s, t, a))
  {
    StepPc(s, t, a);
    StepFrame(s, t, a);
    if !s.pc[t].Enroll? && !s.pc[t].Unlink? { StepLinks(s, t, a); }
  }

  // ---------------------------------------------------------------------------
  // The callbacks keep all this

  ghost predicate Inv(s: State) { ListOk(s) && Tally(s) && WalkersOk(s) && SemsOk(s) }

  /** The entry a walk treats next is on the list: the head, or the successor of an
      entry that is still linked because the counter has not moved. */
  lemma TargetLinked(s: State, w: Walker)
    requires ListOk(s) && w.Walk? && (w.ctr == s.ctr ==> w.cur in s.order)
    ensures Target(s, w).Some? ==> Target(s, w).value in s.order
  {
    if w.ctr == s.ctr {
      var i :| 0 <= i < |s.order| && s.order[i] == w.cur;
      assert Spliced(s, i);
    }
  }

  lemma ArriveInv(s: State, c: Cid, k: Fd, target: Option<Tid>)
    requires Inv(s) && k < |s.socks| && c < |s.walker| && (target.Some? ==> target.value in s.order)
    ensures Inv(Arrive(s, c, k, target))
  {
    var s' := Arrive(s, c, k, target);
    assert ListOk(s') by {
      forall i | 0 <= i < |s.order| ensures Spliced(s', i) { assert Spliced(s, i); }
    }
    forall j | 0 <= j < |s.waiting| ensures Holders(s', j) == Holders(s, j) {}
  }

  lemma SocksInv(s: State, socks: seq<Sock>)
    requires Inv(s) && |socks| == |s.socks|
    ensures Inv(s.(socks := socks))
  {
    var s1 := s.(socks := socks);
    assert ListOk(s1) by {
      forall i | 0 <= i < |s.order| ensures Spliced(s1, i) { assert Spliced(s, i); }
    }
    forall j | 0 <= j < |s.waiting| ensures Holders(s1, j) == Holders(s, j) {}
  }

  lemma EventInv(s: State, c: Cid, k: Fd, ev: Event)
    requires Inv(s) && EventEnabled(s, c, k)
    ensures Inv(EventStep(s, c, k, ev))
  {
    var s1 := s.(socks := s.socks[k := Apply(s.socks[k], ev)]);
    SocksInv(s, s1.socks);
    if s.waiting[k] != 0 {
      ArriveInv(s1, c, k, s.head);
    }
  }

  lemma WalkInv(s: State, c: Cid)
    requires Inv(s) && WalkEnabled(s, c)
    ensures Inv(WalkStep(s, c))
  {
    TargetLinked(s, s.walker[c]);
    ArriveInv(s, c, s.walker[c].k, Target(s, s.walker[c]));
  }

  lemma StepInv(s: State, t: Tid, a: Action)
    requires Inv(s) && Enabled(s, t, a)
    ensures Inv(Step(s, t, a))
  {
    ListStep(s, t, a);
    TallyStep(s, t, a);
    WalkersStep(s, t, a);
    SemsStep(s, t, a);
  }

  // ---------------------------------------------------------------------------
  // No missed wake-up

  /** Its second scan has passed socket k and has found nothing. */
  predicate Relies(p: PC, k: Fd) { (p.Scan2? && p.hits == NOTHING && k < p.i) || p.Asleep? }

  ghost predicate Before(q: seq<Tid>, a: Tid, b: Tid) { exists i, j :: 0 <= i < j < |q| && q[i] == a && q[j] == b }

  /** Callback c will still come to entry t for socket k. */
  ghost predicate Chases(s: State, c: Cid, k: Fd, t: Tid) {
    && c < |s.walker| && s.walker[c].Walk? && s.walker[c].k == k
    && (s.walker[c].ctr != s.ctr || Before(s.order, s.walker[c].cur, t))
  }

  ghost predicate Chased(s: State, k: Fd, t: Tid) { exists c :: Chases(s, c, k, t) }

  /** Thread t relies on being woken for an event that socket k already has. */
  predicate Owed(s: State, k: Fd, t: Tid) {
    s.Shaped() && t < |s.pc| && k < |s.socks| && Relies(s.pc[t], k) && Watches(s.want[t], k) &&
    !s.bell[t].signalled && Ready(s, s.want[t], k)
  }

  ghost predicate NoMiss(s: State) { forall k, t | Owed(s, k, t) :: Chased(s, k, t) }

  lemma MissStep(s: State, t: Tid, a: Action)
    requires Inv(s) && Enabled(s, t, a) && NoMiss(s)
    ensures NoMiss(Step(s, t, a))
  {
    var s' := Step(s, t, a);
    StepPc(s, t, a);
    StepFrame(s, t, a);
    if !s.pc[t].Enroll? && !s.pc[t].Unlink? { StepLinks(s, t, a); }
    forall k: Fd, u: Tid | Owed(s', k, u) ensures Chased(s', k, u) {
      assert Owed(s, k, u) by {
        StepOthers(s, t, a, u);
      }
      var c :| Chases(s, c, k, u);
      assert Chases(s', c, k, u);
    }
  }

  /** Going on at `target`, the head or the successor of the current entry, either
      signals t or leaves it ahead. */
  lemma ArriveChases(s: State, c: Cid, k: Fd, i: nat, j: nat)
    requires ListOk(s) && k < |s.socks| && c < |s.walker| && i <= j < |s.order|
    requires s.order[j] in s.order && Ready(s, s.want[s.order[j]], k)
    ensures var (s', t) := (Arrive(s, c, k, Some(s.order[i])), s.order[j]);
      (t < |s'.bell| && s'.bell[t].signalled) || Chases(s', c, k, t)
  {
    assert s.order[i] in s.order && s.order[j] in s.order;
    if i != j {
      assert Before(s.order, s.order[i], s.order[j]);
    }
  }

  lemma MissEvent(s: State, c: Cid, k: Fd, ev: Event)
    requires Inv(s) && EventEnabled(s, c, k) && NoMiss(s)
    ensures NoMiss(EventStep(s, c, k, ev))
  {
    var s' := EventStep(s, c, k, ev);
    var s1 := s.(socks := s.socks[k := Apply(s.socks[k], ev)]);
    SocksInv(s, s1.socks);
    forall l: Fd, t: Tid | Owed(s', l, t) ensures Chased(s', l, t) {
      assert t in s.order;
      if l == k {
        assert t in Holders(s, k);
        var j :| 0 <= j < |s.order| && s.order[j] == t;
        assert s.head == Some(s.order[0]);
        ArriveChases(s1, c, k, 0, j);
        assert Chases(s', c, k, t);
      } else {
        assert Owed(s, l, t);
        var d :| Chases(s, d, l, t);
        assert Chases(s', d, l, t);
      }
    }
  }

  lemma MissWalk(s: State, c: Cid)
    requires Inv(s) && WalkEnabled(s, c) && NoMiss(s)
    ensures NoMiss(WalkStep(s, c))
  {
    var s' := WalkStep(s, c);
    var w := s.walker[c];
    forall l: Fd, t: Tid | Owed(s', l, t) ensures Chased(s', l, t) {
      assert t in s.order && Owed(s, l, t);
      var d :| Chases(s, d, l, t);
      if d != c {
        assert Chases(s', d, l, t);
      } else {
        var i, j := NextIndex(s, w, t);
        ArriveChases(s, c, l, i, j);
        assert Chases(s', c, l, t);
      }
    }
  }

  lemma NextIndex(s: State, w: Walker, t: Tid) returns (i: nat, j: nat)
    requires ListOk(s) && w.Walk? && t in s.order && (w.ctr == s.ctr ==> Before(s.order, w.cur, t))
    ensures i <= j < |s.order| && s.order[j] == t && Target(s, w) == Some(s.order[i])
  {
    if w.ctr == s.ctr {
      var a, b :| 0 <= a < b < |s.order| && s.order[a] == w.cur && s.order[b] == t;
      assert Spliced(s, a);
      i, j := a + 1, b;
    } else {
      var b :| 0 <= b < |s.order| && s.order[b] == t;
      i, j := 0, b;
    }
  }

  // ---------------------------------------------------------------------------
  // Whole runs

  lemma InitInv(s: State)
    requires Init(s)
    ensures Inv(s) && NoMiss(s)
  {
    forall k | 0 <= k < |s.waiting| ensures Holders(s, k) == {} {}
  }

  lemma InvNext(s: State, s': State)
    requires Inv(s) && NoMiss(s) && Next(s, s')
    ensures Inv(s') && NoMiss(s')
  {
    if SelectMoves(s, s') {
      var t, a :| Enabled(s, t, a) && s' == Step(s, t, a);
      StepInv(s, t, a);
      MissStep(s, t, a);
    } else if EventArrives(s, s') {
      var c, k, ev :| EventEnabled(s, c, k) && s' == EventStep(s, c, k, ev);
      EventInv(s, c, k, ev);
      MissEvent(s, c, k, ev);
    } else {
      var c :| WalkEnabled(s, c) && s' == WalkStep(s, c);
      WalkInv(s, c);
      MissWalk(s, c);
    }
  }

  lemma {:induction false} InvAlways(r: seq<State>, i: nat)
    requires Run(r) && i < |r|
    ensures Inv(r[i]) && NoMiss(r[i])
  {
    if i == 0 {
      InitInv(r[0]);
    } else {
      InvAlways(r, i - 1);
      assert StepTo(r, i);
      InvNext(r[i - 1], r[i]);
    }
  }

  /** In every interleaving: a thread asleep in lwip_select that has not been signalled asked for
      no socket with data, room or an error pending, except one for which some event_callback is
      still walking the list and has this thread's entry ahead of it. */
  lemma NoMissedWakeup(r: seq<State>, i: nat, t: Tid, k: Fd)
    requires Run(r) && i < |r| && r[i].Shaped() && t < |r[i].pc| && r[i].pc[t].Asleep? && !r[i].bell[t].signalled
    requires k < r[i].want[t].n && k < |r[i].socks|
    requires
      || (k in r[i].want[t].rd && r[i].socks[k].rcv > 0)
      || (k in r[i].want[t].wr && r[i].socks[k].send)
      || (k in r[i].want[t].ex && r[i].socks[k].err)
    ensures exists c :: Chases(r[i], c, k, t)
  {
    InvAlways(r, i);
    assert Owed(r[i], k, t);
  }

  /** What an event does to its socket, and that nothing else does anything to a socket. */
  lemma EventSets(s: State, c: Cid, k: Fd, ev: Event)
    requires EventEnabled(s, c, k)
    ensures var (so, socks) := (s.socks[k], EventStep(s, c, k, ev).socks);
      && |socks| == |s.socks| && (forall l: Fd | l < |socks| && l != k :: socks[l] == s.socks[l])
      && socks[k].rcv == so.rcv + (if ev.RcvPlus? then 1 else if ev.RcvMinus? then -1 else 0)
      && (socks[k].send <==> ev.SendPlus? || (so.send && !ev.SendMinus?))
      && (socks[k].err <==> ev.Error? || so.err)
  {
  }

  /** No thread is signalled in vain: the socket being walked for has an event it asked for. */
  lemma SignalledForCause(s: State, s': State, t: Tid)
    requires Next(s, s') && s.Shaped() && t < |s.bell| && !s.bell[t].signalled && t < |s'.bell| && s'.bell[t].signalled
    ensures s'.want == s.want
    ensures exists k: Fd | k < |s'.socks| ::
              || (k in s.want[t].rd && s'.socks[k].rcv > 0)
              || (k in s.want[t].wr && s'.socks[k].send)
              || (k in s.want[t].ex && s'.socks[k].err)
  {
    if SelectMoves(s, s') {
      var u, a :| Enabled(s, u, a) && s' == Step(s, u, a);
      StepSignals(s, u, a, t);
    } else if EventArrives(s, s') {
      var c: Cid, k: Fd, ev :| EventEnabled(s, c, k) && s' == EventStep(s, c, k, ev);
      assert Matches(s'.socks[k], s.want[t], k);
    } else {
      var c: Cid :| WalkEnabled(s, c) && s' == WalkStep(s, c);
      assert Matches(s'.socks[s.walker[c].k], s.want[t], s.walker[c].k);
    }
  }

  lemma StepSignals(s: State, u: Tid, a: Action, t: Tid)
    requires Enabled(s, u, a) && t < |s.bell|
    ensures t < |Step(s, u, a).bell| && (Step(s, u, a).bell[t].signalled ==> s.bell[t].signalled)
  {
  }

  // ---------------------------------------------------------------------------
  // What a call returns

  predicate Scans(p: PC) { p.Scan1? || p.Scan2? || p.Scan3? }

  predicate SameScan(p: PC, q: PC) {
    (p.Scan1? && q.Scan1?) || (p.Scan2? && q.Scan2?) || (p.Scan3? && q.Scan3?)
  }

  /** From state j to state i thread t is in one scan. */
  ghost predicate OneScan(r: seq<State>, j: nat, i: nat, t: Tid)
    requires i < |r|
  {
    && (forall l | j <= l <= i :: r[l].Shaped() && t < |r[l].pc|)
    && (forall l | j <= l <= i :: SameScan(r[l].pc[t], r[i].pc[t]) && r[l].want[t] == r[i].want[t])
  }

  /** A scan finds exactly what was asked for and pending at the moment it came to the socket:
      socket k was looked at in state j, and is among the hits for just the events it then had. */
  ghost predicate Seen(r: seq<State>, j: nat, i: nat, t: Tid, k: Fd)
    requires i < |r|
  {
    && j < i && OneScan(r, j, i, t) && r[j].pc[t].i == k && k < |r[j].socks|
    && (k in r[i].pc[t].hits.rd <==> k in r[i].want[t].rd && r[j].socks[k].rcv > 0)
    && (k in r[i].pc[t].hits.wr <==> k in r[i].want[t].wr && r[j].socks[k].send)
    && (k in r[i].pc[t].hits.ex <==> k in r[i].want[t].ex && r[j].socks[k].err)
  }

  ghost predicate FoundExactly(r: seq<State>, i: nat, t: Tid, k: Fd)
    requires i < |r|
  {
    exists j: nat :: Seen(r, j, i, t, k)
  }

  /** One step of a run from the point of view of thread t. */
  lemma StepOfOne(s: State, s': State, t: Tid)
    requires Next(s, s') && s.Shaped() && t < |s.pc|
    ensures s'.Shaped() && t < |s'.pc|
    ensures (s'.pc[t] == s.pc[t] && s'.want[t] == s.want[t]) || exists a :: Enabled(s, t, a) && s' == Step(s, t, a)
  {
    if SelectMoves(s, s') {
      var u, a :| Enabled(s, u, a) && s' == Step(s, u, a);
      StepPc(s, u, a);
      StepFrame(s, u, a);
      if u != t { StepOthers(s, u, a, t); }
    }
  }

  /** One turn of a scan. */
  lemma ScanTurn(s: State, t: Tid, a: Action)
    requires Enabled(s, t, a) && Scans(Step(s, t, a).pc[t]) && Step(s, t, a).pc[t].i > 0
    ensures var (p, p') := (s.pc[t], Step(s, t, a).pc[t]);
      && SameScan(p, p') && p'.i == p.i + 1 && p'.i <= s.want[t].n && Step(s, t, a).want == s.want
      && p'.hits == Note(s, s.want[t], p.i, p.hits)
  {
  }

  lemma NextShape(s: State, s': State)
    requires Next(s, s')
    ensures s'.Shaped() && |s'.pc| == |s.pc| && |s'.socks| == |s.socks|
  {
    if SelectMoves(s, s') {
      var u, a :| Enabled(s, u, a) && s' == Step(s, u, a);
      StepPc(s, u, a);
      StepFrame(s, u, a);
    }
  }

  /** Only sockets already looked at are among the hits. */
  predicate Below(p: PC, w: Want) {
    Scans(p) ==>
      && p.i <= w.n
      && (forall x | x in p.hits.rd :: x < p.i)
      && (forall x | x in p.hits.wr :: x < p.i)
      && (forall x | x in p.hits.ex :: x < p.i)
  }

  lemma BelowStep(s: State, s': State, t: Tid)
    requires Next(s, s') && s.Shaped() && t < |s.pc| && Below(s.pc[t], s.want[t])
    ensures s'.Shaped() && t < |s'.pc| && Below(s'.pc[t], s'.want[t])
  {
    StepOfOne(s, s', t);
    if !(s'.pc[t] == s.pc[t] && s'.want[t] == s.want[t]) && Scans(s'.pc[t]) && s'.pc[t].i > 0 {
      var a :| Enabled(s, t, a) && s' == Step(s, t, a);
      ScanTurn(s, t, a);
    }
  }

  lemma {:induction false} BelowAlways(r: seq<State>, i: nat, t: Tid)
    requires Run(r) && i < |r| && t < |r[i].pc|
    ensures r[i].Shaped() && Below(r[i].pc[t], r[i].want[t])
  {
    if i > 0 {
      assert StepTo(r, i);
      NextShape(r[i - 1], r[i]);
      BelowAlways(r, i - 1, t);
      BelowStep(r[i - 1], r[i], t);
    }
  }

  /** A step in which thread t is in a scan and has got past socket k: either it had before, or
      it looks at socket k now. */
  lemma LookedAt(s: State, s': State, t: Tid, k: Fd)
    requires Next(s, s') && s.Shaped() && t < |s.pc| && Below(s.pc[t], s.want[t])
    requires t < |s'.pc| && Scans(s'.pc[t]) && k < s'.pc[t].i && k < |s'.socks|
    ensures SameScan(s.pc[t], s'.pc[t]) && t < |s'.want| && s'.want[t] == s.want[t] && |s'.socks| == |s.socks|
    ensures var (h, h') := (s.pc[t].hits, s'.pc[t].hits);
      if s.pc[t].i == k then
        && (k in h'.rd <==> k in s.want[t].rd && s.socks[k].rcv > 0)
        && (k in h'.wr <==> k in s.want[t].wr && s.socks[k].send)
        && (k in h'.ex <==> k in s.want[t].ex && s.socks[k].err)
      else
        && k < s.pc[t].i
        && (k in h.rd <==> k in h'.rd) && (k in h.wr <==> k in h'.wr) && (k in h.ex <==> k in h'.ex)
  {
    StepOfOne(s, s', t);
    NextShape(s, s');
    if !(s'.pc[t] == s.pc[t] && s'.want[t] == s.want[t]) {
      var a :| Enabled(s, t, a) && s' == Step(s, t, a);
      ScanTurn(s, t, a);
    }
  }

  lemma {:induction false} ScanExact(r: seq<State>, i: nat, t: Tid, k: Fd) returns (j: nat)
    requires Run(r) && i < |r| && t < |r[i].pc|
    requires Scans(r[i].pc[t]) && k < r[i].pc[t].i && k < |r[i].socks|
    ensures Seen(r, j, i, t, k)
  {
    assert i > 0;
    assert StepTo(r, i);
    NextShape(r[i - 1], r[i]);
    BelowAlways(r, i - 1, t);
    LookedAt(r[i - 1], r[i], t, k);
    if r[i - 1].pc[t].i == k {
      j := i - 1;
    } else {
      j := ScanExact(r, i - 1, t, k);
      SeenLonger(r, j, i - 1, t, k);
    }
  }

  lemma SeenLonger(r: seq<State>, j: nat, i: nat, t: Tid, k: Fd)
    requires i + 1 < |r| && Seen(r, j, i, t, k)
    requires r[i + 1].Shaped() && t < |r[i + 1].pc| && SameScan(r[i].pc[t], r[i + 1].pc[t])
    requires r[i + 1].want[t] == r[i].want[t]
    requires var (h, h') := (r[i].pc[t].hits, r[i + 1].pc[t].hits);
             (k in h.rd <==> k in h'.rd) && (k in h.wr <==> k in h'.wr) && (k in h.ex <==> k in h'.ex)
    ensures Seen(r, j, i + 1, t, k)
  {
  }

  /** What a call returns. A call that did not time out returns what its last scan found: of every
      socket up to maxfdp1 exactly the events that were asked for and pending when the scan came to
      it. It comes back from the first scan only with such an event, or if it must not wait. One
      that timed out returns nothing. */
  lemma CallReturns(r: seq<State>, i: nat, t: Tid)
    requires Run(r) && i + 1 < |r| && t < |r[i].pc| && t < |r[i + 1].pc|
    requires !r[i].pc[t].Out? && r[i + 1].pc[t].Out?
    ensures r[i].Shaped()
    ensures var (p, w, found) := (r[i].pc[t], r[i].want[t], r[i + 1].pc[t].found);
      && (p.Scan1? || p.Scan3? || (p.FreeSem? && p.late && found == NOTHING))
      && (p.Scan1? ==> found != NOTHING || w.poll)
      && (Scans(p) ==> p.hits == found && p.i == w.n)
      && forall k: Fd | k < w.n && k < |r[i].socks| && Scans(p) :: FoundExactly(r, i, t, k)
  {
    BelowAlways(r, i, t);
    assert StepTo(r, i + 1);
    StepOfOne(r[i], r[i + 1], t);
    var a :| Enabled(r[i], t, a) && r[i + 1] == Step(r[i], t, a);
    var (p, w) := (r[i].pc[t], r[i].want[t]);
    forall k: Fd | k < w.n && k < |r[i].socks| && Scans(p) ensures FoundExactly(r, i, t, k) {
      var j := ScanExact(r, i, t, k);
    }
  }

  /** A call is late exactly if it left its sleep without taking the semaphore, and stays so. */
  lemma LateIsTimeout(s: State, t: Tid, a: Action)
    requires Enabled(s, t, a)
    ensures var s' := Step(s, t, a);
      && t < |s'.pc| && t < |s'.bell|
      && (s.pc[t].Asleep? ==>
            s'.pc[t].Uncount? && s'.pc[t].i == 0 && (s'.pc[t].late <==> s'.bell[t].sem == s.bell[t].sem))
      && (s.pc[t].Uncount? || s.pc[t].Unlink? ==>
            (s'.pc[t].Uncount? || s'.pc[t].Unlink? || s'.pc[t].FreeSem?) && s'.pc[t].late == s.pc[t].late)
  {
  }

  /** A sleeper that has been signalled finds its semaphore raised, and a semaphore is
      raised at most once per call. */
  lemma SignalledSleeperWakes(r: seq<State>, i: nat, t: Tid)
    requires Run(r) && i < |r| && r[i].Shaped() && t < |r[i].pc| && r[i].pc[t].Asleep?
    ensures r[i].bell[t].signalled <==> Enabled(r[i], t, Go)
    ensures r[i].bell[t].signals <= 1
  {
    InvAlways(r, i);
    assert SemOk(r[i].pc[t], r[i].bell[t]);
  }

  /** An entry a walk may treat: it is linked, its semaphore exists, and is signalled only if it
      was not yet. */
  predicate Treatable(s: State, t: Tid) {
    && t in s.order && t < |s.bell|
    && s.bell[t].live && s.bell[t].signals == if s.bell[t].signalled then 1 else 0
  }

  lemma LinkedTreatable(s: State, t: Tid)
    requires Inv(s) && t in s.order
    ensures Treatable(s, t)
  {
    assert Linked(s.pc[t]);
    assert SemOk(s.pc[t], s.bell[t]);
  }

  /** In every interleaving the lock-dropping walk is safe: the entry it reads its
      successor from and the entry it goes to are linked, and the semaphore it may
      signal exists. */
  lemma WalkIsSafe(r: seq<State>, i: nat, c: Cid)
    requires Run(r) && i < |r| && c < |r[i].walker| && r[i].walker[c].Walk?
    ensures
      var (s, w) := (r[i], r[i].walker[c]);
      && WalkEnabled(s, c)
      && (w.ctr == s.ctr ==> w.cur in s.order)
      && (Target(s, w).Some? ==> Treatable(s, Target(s, w).value))
  {
    InvAlways(r, i);
    var (s, w) := (r[i], r[i].walker[c]);
    TargetLinked(s, w);
    if Target(s, w).Some? { LinkedTreatable(s, Target(s, w).value); }
  }

  /** And so is its beginning: the entry treated in the region that sets the event field. */
  lemma WalkStartIsSafe(r: seq<State>, i: nat, c: Cid, k: Fd)
    requires Run(r) && i < |r| && EventEnabled(r[i], c, k)
    ensures r[i].head.Some? ==> Treatable(r[i], r[i].head.value)
  {
    InvAlways(r, i);
    if r[i].head.Some? {
      assert r[i].head == At(r[i].order, 0);
      LinkedTreatable(r[i], r[i].head.value);
    }
  }

  /** The assertions of lwip_select hold in every interleaving: an entry about to be
      unlinked is the head exactly when it has no predecessor, and a thread about to
      leave a socket finds it with a positive select_waiting. */
  lemma SelectAssertionsHold(r: seq<State>, i: nat, t: Tid)
    requires Run(r) && i < |r| && r[i].Shaped() && t < |r[i].pc|
    ensures r[i].pc[t].Unlink? ==> (r[i].head == Some(t) <==> r[i].prev[t] == None)
    ensures r[i].pc[t].Uncount? && Watches(r[i].want[t], r[i].pc[t].i) ==>
      r[i].pc[t].i < |r[i].waiting| && r[i].waiting[r[i].pc[t].i] > 0
    ensures r[i].pc[t].Count? && Watches(r[i].want[t], r[i].pc[t].i) ==>
      r[i].pc[t].i < |r[i].waiting| && r[i].waiting[r[i].pc[t].i] >= 0
  {
    InvAlways(r, i);
    var s := r[i];
    if s.pc[t].Unlink? {
      var j :| 0 <= j < |s.order| && s.order[j] == t;
      assert Spliced(s, j);
      assert j > 0 ==> s.order[0] != s.order[j];
    } else if s.pc[t].Uncount? && Watches(s.want[t], s.pc[t].i) {
      assert t in Holders(s, s.pc[t].i);
    }
  }
}
