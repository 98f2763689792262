/** The UNIX port's mailbox (contrib/ports/unix/sys_arch.c) as a step-level interleaving
    system: a ring of 128 slots guarded by three semaphores that saturate at one.

    Every thread has a program counter.  A step is one semaphore operation or one
    straight-line block executed while the mailbox semaphore `mutex` is held. */
module Mailbox {
  import opened Basics

  /** SYS_MBOX_SIZE */
  const SIZE: nat := 128

  type Tid = nat
  type Msg = int

  datatype PC =
    | Idle                   // outside the mailbox functions
    // sys_mbox_post
    | PostLock(m: Msg)       // waits for mutex
    | PostTest(m: Msg)       // holds mutex, tests whether the ring is full
    | PostYield(m: Msg)      // has counted itself in wait_send, will release mutex
    | PostSleep(m: Msg)      // waits for not_full
    | PostRelock(m: Msg)     // woken, waits for mutex
    | PostWoken(m: Msg)      // holds mutex, will leave wait_send
    // sys_mbox_trypost
    | TryLock(m: Msg)
    | TryTest(m: Msg)
    // common tail of both
    | Stored(m: Msg)         // slot written, last not yet advanced
    | Bumped(edge: bool)     // last advanced; signals not_empty if the box was empty
    // sys_arch_mbox_fetch
    | FetchLock
    | FetchTest
    | FetchYield             // box found empty, will release mutex
    | FetchSleep             // waits for not_empty, may time out
    | FetchRelock
    // sys_arch_mbox_tryfetch
    | TryFetchLock
    | TryFetchTest
    // common tails
    | Taken                  // first advanced; signals not_full if someone waits
    | Leave                  // will release mutex and return

  /** What a thread may do next.  Only the calls and the timeout are choices. */
  datatype Action = CallPost(m: Msg) | CallTryPost(m: Msg) | CallFetch | CallTryFetch | Go | Timeout

  /** `posted` and `fetched` record the messages in the order in which they entered
      and left the ring; no step reads them. */
  datatype State = State(
    first: nat, last: nat, msgs: seq<Msg>, waitSend: int,
    notEmpty: nat, notFull: nat, mutex: nat,
    pc: map<Tid, PC>,
    posted: seq<Msg>, fetched: seq<Msg>)
  {
    predicate Full() { last + 1 >= first + SIZE }
    predicate Empty() { first == last }
    function To(t: Tid, p: PC): State { this.(pc := pc[t := p]) }
  }

  /** sys_sem_signal: the counter is incremented and then capped at one. */
  function Signal(c: nat): nat { if c + 1 > 1 then 1 else c + 1 }

  ghost predicate Init(s: State) {
    && s.first == s.last == 0 && |s.msgs| == SIZE && s.waitSend == 0
    && s.notEmpty == 0 && s.notFull == 0 && s.mutex == 1
    && (forall t | t in s.pc :: s.pc[t] == Idle)
    && s.posted == [] && s.fetched == []
  }

  /** The semaphore counter on which a thread at this program counter waits, if any. */
  predicate WaitsMutex(p: PC) {
    p.PostLock? || p.PostRelock? || p.TryLock? || p.FetchLock? || p.FetchRelock? || p.TryFetchLock?
  }

  predicate Blocked(s: State, t: Tid)
    requires t in s.pc
  {
    || (WaitsMutex(s.pc[t]) && s.mutex == 0)
    || (s.pc[t].PostSleep? && s.notFull == 0)
    || (s.pc[t].FetchSleep? && s.notEmpty == 0)
  }

  predicate Enabled(s: State, t: Tid, a: Action) {
    && t in s.pc
    && |s.msgs| == SIZE
    && (s.pc[t].Idle? <==> a.CallPost? || a.CallTryPost? || a.CallFetch? || a.CallTryFetch?)
    && (a.Timeout? ==> s.pc[t].FetchSleep?)
    && (a.Go? ==> !Blocked(s, t))
  }

  /** Writes the slot; `last` is advanced by the next step. */
  function Store(s: State, t: Tid, m: Msg): State
    requires |s.msgs| == SIZE
  {
    s.(msgs := s.msgs[s.last % SIZE := m]).To(t, Stored(m))
  }

  /** Reads the oldest slot and advances `first`. */
  function Take(s: State, t: Tid): State
    requires |s.msgs| == SIZE
  {
    s.(fetched := s.fetched + [s.msgs[s.first % SIZE]], first := s.first + 1).To(t, Taken)
  }

  function Step(s: State, t: Tid, a: Action): State
    requires Enabled(s, t, a)
  {
    match s.pc[t]
    case Idle => (match a
      case CallPost(m) => s.To(t, PostLock(m))
      case CallTryPost(m) => s.To(t, TryLock(m))
      case CallFetch => s.To(t, FetchLock)
      case _ => s.To(t, TryFetchLock))
    case PostLock(m) => s.(mutex := 0).To(t, PostTest(m))
    case PostTest(m) => if s.Full() then s.(waitSend := s.waitSend + 1).To(t, PostYield(m)) else Store(s, t, m)
    case PostYield(m) => s.(mutex := Signal(s.mutex)).To(t, PostSleep(m))
    case PostSleep(m) => s.(notFull := 0).To(t, PostRelock(m))
    case PostRelock(m) => s.(mutex := 0).To(t, PostWoken(m))
    case PostWoken(m) => s.(waitSend := s.waitSend - 1).To(t, PostTest(m))
    case TryLock(m) => s.(mutex := 0).To(t, TryTest(m))
    case TryTest(m) => if s.Full() then s.To(t, Leave) else Store(s, t, m)
    case Stored(m) => s.(posted := s.posted + [m], last := s.last + 1).To(t, Bumped(s.last == s.first))
    case Bumped(edge) => s.(notEmpty := if edge then Signal(s.notEmpty) else s.notEmpty).To(t, Leave)
    case FetchLock => s.(mutex := 0).To(t, FetchTest)
    case FetchTest => if s.Empty() then s.To(t, FetchYield) else Take(s, t)
    case FetchYield => s.(mutex := Signal(s.mutex)).To(t, FetchSleep)
    case FetchSleep => if a.Timeout? then s.To(t, Idle) else s.(notEmpty := 0).To(t, FetchRelock)
    case FetchRelock => s.(mutex := 0).To(t, FetchTest)
    case TryFetchLock => s.(mutex := 0).To(t, TryFetchTest)
    case TryFetchTest => if s.Empty() then s.To(t, Leave) else Take(s, t)
    case Taken => s.(notFull := if s.waitSend != 0 then Signal(s.notFull) else s.notFull).To(t, Leave)
    case Leave => s.(mutex := Signal(s.mutex)).To(t, Idle)
  }

  ghost predicate Next(s: State, s': State) {
    exists t: Tid, a: Action :: Enabled(s, t, a) && s' == Step(s, t, a)
  }

  /** A run: an initial state followed by any interleaving of thread steps. */
  ghost predicate Run(r: seq<State>) {
    && |r| > 0
    && Init(r[0])
    && forall i | 0 < i < |r| :: StepTo(r, i)
  }

  ghost predicate StepTo(r: seq<State>, i: nat)
    requires 0 < i < |r|
  {
    Next(r[i - 1], r[i])
  }

  // ---------------------------------------------------------------------------
  // What every interleaving keeps, with any number of posters and fetchers.

  predicate Inside(p: PC) {
    p.PostTest? || p.PostYield? || p.PostWoken? || p.TryTest? || p.Stored? || p.Bumped? ||
    p.FetchTest? || p.FetchYield? || p.TryFetchTest? || p.Taken? || p.Leave?
  }

  ghost predicate SomeInside(s: State) { exists t :: t in s.pc && Inside(s.pc[t]) }

  /** `mutex` really excludes: one thread inside exactly when the counter is zero. */
  ghost predicate Exclusive(s: State) {
    && s.mutex <= 1 && s.notEmpty <= 1 && s.notFull <= 1
    && (s.mutex == 0 <==> SomeInside(s))
    && (forall t, u :: t in s.pc && u in s.pc && Inside(s.pc[t]) && Inside(s.pc[u]) ==> t == u)
  }

  /** The ring is a bounded FIFO holding exactly what was posted and not yet fetched. */
  ghost predicate Fifo(s: State) {
    && |s.msgs| == SIZE
    && s.first <= s.last <= s.first + (SIZE - 1)
    && s.last == |s.posted|
    && s.fetched == s.posted[..s.first]
    && (forall i :: s.first <= i < s.last ==> s.msgs[i % SIZE] == s.posted[i])
  }

  /** What a thread inside knows from the test it has just made. */
  ghost predicate Tests(s: State) { forall t | t in s.pc :: Knows(s, s.pc[t]) }

  predicate Knows(s: State, p: PC) {
    match p
    case Stored(m) => !s.Full() && |s.msgs| == SIZE && s.msgs[s.last % SIZE] == m
    case Bumped(_) => !s.Empty()
    case PostYield(_) => s.Full()
    case FetchYield => s.Empty()
    case _ => true
  }

  predicate Counted(p: PC) { p.PostYield? || p.PostSleep? || p.PostRelock? || p.PostWoken? }

  ghost function Waiters(s: State): set<Tid> { set t | t in s.pc && Counted(s.pc[t]) }

  ghost predicate Core(s: State) {
    Exclusive(s) && Fifo(s) && Tests(s) && s.waitSend == |Waiters(s)|
  }

  lemma InitCore(s: State)
    requires Init(s)
    ensures Core(s)
  {
    assert Waiters(s) == {};
  }

  /** Only the acting thread moves, and the three ways it can cross the mutex. */
  lemma StepMoves(s: State, t: Tid, a: Action)
    requires Enabled(s, t, a)
    ensures var s' := Step(s, t, a);
      && t in s'.pc && s'.pc == s.pc[t := s'.pc[t]]
      && (s'.mutex == s.mutex <== Inside(s.pc[t]) == Inside(s'.pc[t]))
      && (!Inside(s.pc[t]) && Inside(s'.pc[t]) ==> s.mutex != 0 && s'.mutex == 0)
      && (Inside(s.pc[t]) && !Inside(s'.pc[t]) ==> s'.mutex == 1)
      && s'.waitSend - s.waitSend ==
           (if Counted(s'.pc[t]) then 1 else 0) - (if Counted(s.pc[t]) then 1 else 0)
  {
    match s.pc[t] {
      case Idle =>
      case PostTest(_) =>
      case PostYield(_) =>
      case TryTest(_) =>
      case FetchTest =>
      case TryFetchTest =>
      case FetchSleep =>
      case _ =>
    }
  }

  lemma ExclusiveKept(s: State, s': State, t: Tid)
    requires Exclusive(s) && t in s.pc && t in s'.pc && s'.pc == s.pc[t := s'.pc[t]]
    requires s'.notEmpty <= 1 && s'.notFull <= 1
    requires s'.mutex == s.mutex <== Inside(s.pc[t]) == Inside(s'.pc[t])
    requires !Inside(s.pc[t]) && Inside(s'.pc[t]) ==> s.mutex != 0 && s'.mutex == 0
    requires Inside(s.pc[t]) && !Inside(s'.pc[t]) ==> s'.mutex == 1
    ensures Exclusive(s')
  {
    if SomeInside(s) {
      var u :| u in s.pc && Inside(s.pc[u]);
      assert u == t || s'.pc[u] == s.pc[u];
    }
    if SomeInside(s') {
      var u :| u in s'.pc && Inside(s'.pc[u]);
      assert u == t || s'.pc[u] == s.pc[u];
    }
  }

  lemma ExclusiveStep(s: State, t: Tid, a: Action)
    requires Enabled(s, t, a) && Exclusive(s)
    ensures Exclusive(Step(s, t, a))
  {
    StepMoves(s, t, a);
    assert Step(s, t, a).notEmpty <= 1 && Step(s, t, a).notFull <= 1;
    ExclusiveKept(s, Step(s, t, a), t);
  }

  lemma SlotsDistinct(a: nat, b: nat)
    requires a < b < a + SIZE
    ensures a % SIZE != b % SIZE
  {
  }

  lemma FifoStep(s: State, t: Tid, a: Action)
    requires Enabled(s, t, a) && Fifo(s) && Tests(s)
    ensures Fifo(Step(s, t, a))
  {
    assert Knows(s, s.pc[t]);
    var p := s.pc[t];
    if (p.PostTest? || p.TryTest?) && !s.Full() {
      FifoStore(s, t, p.m);
    } else if (p.FetchTest? || p.TryFetchTest?) && !s.Empty() {
      FifoTake(s, t);
    } else if p.Stored? {
      FifoPost(s, p.m);
    } else {
      assert SameRing(s, Step(s, t, a));
    }
  }

  predicate SameRing(s: State, s': State) {
    s'.first == s.first && s'.last == s.last && s'.msgs == s.msgs && s'.posted == s.posted && s'.fetched == s.fetched
  }

  /** Reading the oldest slot takes the next message of the history. */
  lemma FifoTake(s: State, t: Tid)
    requires Fifo(s) && !s.Empty()
    ensures Fifo(Take(s, t))
  {
  }

  /** Advancing `last` makes the slot just written live. */
  lemma FifoPost(s: State, m: Msg)
    requires Fifo(s) && Knows(s, Stored(m))
    ensures Fifo(s.(posted := s.posted + [m], last := s.last + 1))
  {
  }

  /** Writing a slot of a box that is not full hits no live one. */
  lemma FifoStore(s: State, t: Tid, m: Msg)
    requires Fifo(s) && !s.Full()
    ensures Fifo(Store(s, t, m))
  {
    var s' := Store(s, t, m);
    forall i | s.first <= i < s.last ensures s'.msgs[i % SIZE] == s.posted[i] {
      SlotsDistinct(i, s.last);
    }
  }

  /** The acting thread knows what it has just tested. */
  lemma OwnTests(s: State, t: Tid, a: Action)
    requires Enabled(s, t, a) && Fifo(s) && Knows(s, s.pc[t])
    ensures t in Step(s, t, a).pc && Knows(Step(s, t, a), Step(s, t, a).pc[t])
  {
  }

  /** While another thread is inside, no step touches what it has tested. */
  lemma OtherTests(s: State, t: Tid, a: Action, u: Tid)
    requires Enabled(s, t, a) && Exclusive(s) && u in s.pc && u != t && Knows(s, s.pc[u])
    ensures Knows(Step(s, t, a), s.pc[u])
  {
    if Inside(s.pc[u]) { assert SomeInside(s) && !Inside(s.pc[t]); }
  }

  lemma TestsStep(s: State, t: Tid, a: Action)
    requires Enabled(s, t, a) && Exclusive(s) && Fifo(s) && Tests(s)
    ensures Tests(Step(s, t, a))
  {
    var s' := Step(s, t, a);
    StepMoves(s, t, a);
    forall u | u in s'.pc ensures Knows(s', s'.pc[u]) {
      if u == t { OwnTests(s, t, a); } else { OtherTests(s, t, a, u); }
    }
  }

  lemma WaitersKept(s: State, s': State, t: Tid)
    requires t in s.pc && t in s'.pc && s'.pc == s.pc[t := s'.pc[t]]
    requires s.waitSend == |Waiters(s)|
    requires s'.waitSend - s.waitSend ==
             (if Counted(s'.pc[t]) then 1 else 0) - (if Counted(s.pc[t]) then 1 else 0)
    ensures s'.waitSend == |Waiters(s')|
  {
    if Counted(s'.pc[t]) {
      assert Waiters(s') == Waiters(s) + {t};
    } else {
      assert Waiters(s') == Waiters(s) - {t};
    }
  }

  lemma CoreStep(s: State, t: Tid, a: Action)
    requires Enabled(s, t, a) && Core(s)
    ensures Core(Step(s, t, a))
  {
    ExclusiveStep(s, t, a);
    FifoStep(s, t, a);
    TestsStep(s, t, a);
    StepMoves(s, t, a);
    WaitersKept(s, Step(s, t, a), t);
  }

  lemma {:induction false} CoreAlways(r: seq<State>, i: nat)
    requires Run(r) && i < |r|
    ensures Core(r[i])
  {
    if i == 0 {
      InitCore(r[0]);
    } else {
      CoreAlways(r, i - 1);
      assert StepTo(r, i);
      var t, a :| Enabled(r[i - 1], t, a) && r[i] == Step(r[i - 1], t, a);
      CoreStep(r[i - 1], t, a);
    }
  }

  // ---------------------------------------------------------------------------
  // No thread is stranded.

  predicate Fetching(p: PC) { p.FetchLock? || p.FetchTest? || p.FetchYield? || p.FetchSleep? || p.FetchRelock? }

  /** At most thread `f` is in the blocking fetch; tryfetch is open to everyone. */
  ghost predicate SoleFetcher(s: State, f: Tid) {
    forall t | t in s.pc && Fetching(s.pc[t]) :: t == f
  }

  ghost predicate EdgePending(s: State) { exists t :: t in s.pc && s.pc[t] == Bumped(true) }

  /** A sleeping fetcher that no token will wake has nothing to fetch, unless a
      poster is just about to signal. */
  ghost predicate FetcherSafe(s: State, f: Tid) {
    f in s.pc && s.pc[f].FetchSleep? && s.notEmpty == 0 && !s.Empty() ==> EdgePending(s)
  }

  /** A poster on its way to the ring, or a fetcher about to signal not_full. */
  predicate InTransit(s: State, t: Tid) {
    t in s.pc &&
    (s.pc[t].PostRelock? || s.pc[t].PostWoken? || s.pc[t].PostTest? || s.pc[t].TryTest? ||
     s.pc[t].Stored? || (s.pc[t].Taken? && s.waitSend > 0))
  }

  ghost predicate SomeInTransit(s: State) { exists t :: InTransit(s, t) }

  /** A sleeping poster that no token will wake faces a non-empty box, whose next
      fetch signals it, or another thread that will fill or signal the box. */
  ghost predicate PosterSafe(s: State, p: Tid) {
    p in s.pc && s.pc[p].PostSleep? && s.notFull == 0 && s.Empty() ==> SomeInTransit(s)
  }

  /** Where a step takes its thread. */
  function PcAfter(s: State, t: Tid, a: Action): PC
    requires Enabled(s, t, a)
  {
    StepMoves(s, t, a);
    Step(s, t, a).pc[t]
  }

  /** How a step can change the ring's ends. */
  lemma EndFacts(s: State, t: Tid, a: Action)
    requires Enabled(s, t, a)
    ensures var (s', p, p') := (Step(s, t, a), s.pc[t], PcAfter(s, t, a));
      && (s'.last == s.last || (p.Stored? && p' == Bumped(s.Empty()) && s'.first == s.first && s'.last == s.last + 1))
      && (s'.first == s.first || (p'.Taken? && !s.Empty() && s'.last == s.last))
  {
  }

  /** How a step can change the tokens for fetchers. */
  lemma TokenFacts(s: State, t: Tid, a: Action)
    requires Enabled(s, t, a)
    ensures var (s', p, p') := (Step(s, t, a), s.pc[t], PcAfter(s, t, a));
      && (s'.notEmpty == s.notEmpty || (p.Bumped? && s'.notEmpty == 1) || (p.FetchSleep? && p'.FetchRelock?))
      && (p == Bumped(true) ==> s'.notEmpty == 1)
      && (p'.FetchSleep? ==> p.FetchYield?)
  {
  }

  lemma FetcherSafeStep(s: State, t: Tid, a: Action, f: Tid)
    requires Enabled(s, t, a) && Core(s) && SoleFetcher(s, f) && SoleFetcher(Step(s, t, a), f)
    requires FetcherSafe(s, f)
    ensures FetcherSafe(Step(s, t, a), f)
  {
    StepMoves(s, t, a);
    EndFacts(s, t, a);
    TokenFacts(s, t, a);
    FetcherSafeKept(s, Step(s, t, a), t, f);
  }

  lemma FetcherSafeKept(s: State, s': State, t: Tid, f: Tid)
    requires t in s.pc && t in s'.pc && s'.pc == s.pc[t := s'.pc[t]]
    requires FetcherSafe(s, f) && Knows(s, s.pc[t]) && s.first <= s.last && (Fetching(s.pc[t]) ==> t == f)
    requires s'.last == s.last ||
             (s.pc[t].Stored? && s'.pc[t] == Bumped(s.Empty()) && s'.first == s.first && s'.last == s.last + 1)
    requires s'.first == s.first || (s'.pc[t].Taken? && !s.Empty() && s'.last == s.last)
    requires s'.notEmpty == s.notEmpty || (s.pc[t].Bumped? && s'.notEmpty == 1) ||
             (s.pc[t].FetchSleep? && s'.pc[t].FetchRelock?)
    requires s.pc[t] == Bumped(true) ==> s'.notEmpty == 1
    requires s'.pc[t].FetchSleep? ==> s.pc[t].FetchYield?
    ensures FetcherSafe(s', f)
  {
    if f in s'.pc && s'.pc[f].FetchSleep? && s'.notEmpty == 0 && !s'.Empty() {
      if s'.pc[t] != Bumped(true) {
        assert EdgePending(s);
        var u :| u in s.pc && s.pc[u] == Bumped(true);
        assert u != t && s'.pc[u] == Bumped(true);
      }
    }
  }

  lemma PosterSafeStep(s: State, t: Tid, a: Action, p: Tid)
    requires Enabled(s, t, a) && Core(s)
    requires PosterSafe(s, p)
    ensures PosterSafe(Step(s, t, a), p)
  {
    var s' := Step(s, t, a);
    if p in s'.pc && s'.pc[p].PostSleep? && s'.notFull == 0 && s'.Empty() {
      assert p in s.pc && Counted(s.pc[p]);
      assert p in Waiters(s);
      assert s.waitSend > 0;
      if InTransit(s', t) {
      } else {
        assert p != t;
        assert SomeInTransit(s);
        var u :| InTransit(s, u);
        assert InTransit(s', u);
      }
    }
  }

  lemma {:induction false} SafeAlways(r: seq<State>, f: Tid, i: nat)
    requires Run(r) && i < |r|
    requires forall j | 0 <= j < |r| :: SoleFetcher(r[j], f)
    ensures FetcherSafe(r[i], f) && PostersSafe(r[i])
  {
    if i > 0 {
      SafeAlways(r, f, i - 1);
      CoreAlways(r, i - 1);
      assert StepTo(r, i);
      var t, a :| Enabled(r[i - 1], t, a) && r[i] == Step(r[i - 1], t, a);
      FetcherSafeStep(r[i - 1], t, a, f);
      PostersSafeStep(r[i - 1], t, a);
    }
  }

  ghost predicate PostersSafe(s: State) { forall p | p in s.pc :: PosterSafe(s, p) }

  lemma PostersSafeStep(s: State, t: Tid, a: Action)
    requires Enabled(s, t, a) && Core(s) && PostersSafe(s)
    ensures PostersSafe(Step(s, t, a))
  {
    StepMoves(s, t, a);
    forall p | p in Step(s, t, a).pc ensures PosterSafe(Step(s, t, a), p) {
      assert PosterSafe(s, p);
      PosterSafeStep(s, t, a, p);
    }
  }

  ghost predicate AllBlocked(s: State) {
    forall t | t in s.pc && !s.pc[t].Idle? :: Blocked(s, t)
  }

  /** With one blocking fetcher, a state of any run in which every active thread is
      blocked is one of two harmless ones: only the fetcher sleeps and the box is
      empty, or no one fetches, the box is non-empty and only posters sleep.  So an
      active fetcher and active posters never all block. */
  lemma NoStrandedThread(r: seq<State>, f: Tid, i: nat)
    requires Run(r) && i < |r|
    requires forall j | 0 <= j < |r| :: SoleFetcher(r[j], f)
    requires AllBlocked(r[i])
    ensures
      var s := r[i];
      || (s.Empty() && forall t | t in s.pc && !s.pc[t].Idle? :: t == f && s.pc[t].FetchSleep?)
      || (!s.Empty() && forall t | t in s.pc && !s.pc[t].Idle? :: s.pc[t].PostSleep?)
  {
    var s := r[i];
    CoreAlways(r, i);
    SafeAlways(r, f, i);
    assert SoleFetcher(s, f);
    assert !SomeInside(s);
    assert !SomeInTransit(s) by {
      forall u | u in s.pc ensures !s.pc[u].PostRelock? { assert s.pc[u].Idle? || Blocked(s, u); }
    }
    assert !EdgePending(s) by {
      forall u | u in s.pc ensures s.pc[u] != Bumped(true) { assert !Inside(s.pc[u]); }
    }
    forall t | t in s.pc && !s.pc[t].Idle?
      ensures (s.pc[t].PostSleep? && !s.Empty()) || (t == f && s.pc[t].FetchSleep? && s.Empty())
    {
      assert Blocked(s, t) && PosterSafe(s, t);
    }
  }

  // ---------------------------------------------------------------------------
  // Refinement of a bounded FIFO queue.

  /** The queue a client sees, read off the ring alone. */
  ghost function Queue(s: State): seq<Msg>
    requires |s.msgs| == SIZE && s.first <= s.last
  {
    seq(s.last - s.first, i requires 0 <= i => s.msgs[(s.first + i) % SIZE])
  }

  lemma QueueIsPosted(s: State)
    requires Fifo(s)
    ensures Queue(s) == s.posted[s.first..] && |Queue(s)| <= SIZE - 1
    ensures s.posted == s.fetched + Queue(s)
  {
    forall i | 0 <= i < s.last - s.first ensures Queue(s)[i] == s.posted[s.first..][i] {
      assert s.first <= s.first + i < s.last;
    }
  }

  /** The steps that touch the ring or the histories. */
  lemma StepEffect(s: State, t: Tid, a: Action)
    requires Enabled(s, t, a) && Core(s)
    ensures var s' := Step(s, t, a);
      || (s'.posted == s.posted && s'.fetched == s.fetched && s'.first == s.first && s'.last == s.last)
      || (!s.Full() && s.pc[t].Stored? && s'.posted == s.posted + [s.pc[t].m]
           && s'.fetched == s.fetched && s'.first == s.first)
      || (!s.Empty() && s'.posted == s.posted
           && s'.fetched == s.fetched + [s.posted[s.first]] && s'.first == s.first + 1)
  {
  }

  /** Every step of every run enqueues at the back of a queue with room, dequeues from
      the front of a non-empty one, or leaves the queue alone. */
  lemma RefinesBoundedFifo(r: seq<State>, i: nat)
    requires Run(r) && 0 < i < |r|
    ensures Fifo(r[i - 1]) && Fifo(r[i]) && QueueMoves(r[i - 1], r[i])
  {
    CoreAlways(r, i - 1);
    CoreAlways(r, i);
    assert StepTo(r, i);
    QueueNext(r[i - 1], r[i]);
  }

  lemma QueueNext(s: State, s': State)
    requires Core(s) && Core(s') && Next(s, s')
    ensures QueueMoves(s, s')
  {
    var t, a :| Enabled(s, t, a) && s' == Step(s, t, a);
    StepEffect(s, t, a);
    QueueIsPosted(s);
    QueueIsPosted(s');
  }

  /** One operation of a bounded queue, or none. */
  ghost predicate QueueMoves(s: State, s': State)
    requires Fifo(s) && Fifo(s')
  {
    var (q, q') := (Queue(s), Queue(s'));
    || (q' == q && s'.posted == s.posted && s'.fetched == s.fetched)
    || (|q| < SIZE - 1 && s'.fetched == s.fetched && exists m :: q' == q + [m] && s'.posted == s.posted + [m])
    || (q != [] && q' == q[1..] && s'.posted == s.posted && s'.fetched == s.fetched + [q[0]])
  }

  /** What was fetched is, at every moment, a prefix of what was posted. */
  lemma FetchedIsPrefixOfPosted(r: seq<State>, i: nat)
    requires Run(r) && i < |r|
    ensures r[i].fetched <= r[i].posted
    ensures |r[i].posted| - |r[i].fetched| <= 127
  {
    CoreAlways(r, i);
  }

  // ---------------------------------------------------------------------------
  // What each call does

  /** The call a thread is in, what it has put into the box and taken from it, and whether it found
      the box full or empty while it held the mutex. */
  datatype Story = Story(call: Action, puts: seq<Msg>, takes: seq<Msg>, full: bool, empty: bool)

  /** The call that leads from Idle to p. */
  function CallOf(p: PC): Action {
    match p
    case PostLock(m) => CallPost(m)
    case TryLock(m) => CallTryPost(m)
    case FetchLock => CallFetch
    case _ => CallTryFetch
  }

  /** The story of a thread at state i, from what the run shows of it: a thread moves when its
      program counter changes. */
  function StoryOf(r: seq<State>, i: nat, t: Tid): Option<Story>
    requires i < |r|
  {
    if i == 0 || t !in r[i].pc || t !in r[i - 1].pc || r[i].pc[t].Idle? then None
    else if r[i - 1].pc[t].Idle? then Some(Story(CallOf(r[i].pc[t]), [], [], false, false))
    else
      var before := StoryOf(r, i - 1, t);
      if before.None? || r[i].pc[t] == r[i - 1].pc[t] then before
      else Some(Told(before.value, r[i - 1], r[i], Inside(r[i - 1].pc[t])))
  }

  function Told(y: Story, s: State, s': State, inside: bool): Story {
    y.(puts := y.puts + (if |s.posted| <= |s'.posted| then s'.posted[|s.posted|..] else []),
         takes := y.takes + (if |s.fetched| <= |s'.fetched| then s'.fetched[|s.fetched|..] else []),
         full := y.full || (inside && s.last - s.first >= 127), empty := y.empty || (inside && s.first == s.last))
  }

  /** How far a call is at each program counter. */
  predicate Fits(p: PC, y: Story) {
    match p
    case Idle => false
    case PostLock(m) => y.call == CallPost(m) && y.puts == [] && y.takes == []
    case PostTest(m) => y.call == CallPost(m) && y.puts == [] && y.takes == []
    case PostYield(m) => y.call == CallPost(m) && y.puts == [] && y.takes == []
    case PostSleep(m) => y.call == CallPost(m) && y.puts == [] && y.takes == []
    case PostRelock(m) => y.call == CallPost(m) && y.puts == [] && y.takes == []
    case PostWoken(m) => y.call == CallPost(m) && y.puts == [] && y.takes == []
    case TryLock(m) => y.call == CallTryPost(m) && y.puts == [] && y.takes == []
    case TryTest(m) => y.call == CallTryPost(m) && y.puts == [] && y.takes == []
    case Stored(m) => (y.call == CallPost(m) || y.call == CallTryPost(m)) && y.puts == [] && y.takes == []
    case Bumped(_) => (y.call.CallPost? || y.call.CallTryPost?) && y.puts == [y.call.m] && y.takes == []
    case FetchLock => y.call.CallFetch? && y.puts == [] && y.takes == []
    case FetchTest => y.call.CallFetch? && y.puts == [] && y.takes == []
    case FetchYield => y.call.CallFetch? && y.puts == [] && y.takes == []
    case FetchSleep => y.call.CallFetch? && y.puts == [] && y.takes == []
    case FetchRelock => y.call.CallFetch? && y.puts == [] && y.takes == []
    case TryFetchLock => y.call.CallTryFetch? && y.puts == [] && y.takes == []
    case TryFetchTest => y.call.CallTryFetch? && y.puts == [] && y.takes == []
    case Taken => (y.call.CallFetch? || y.call.CallTryFetch?) && y.puts == [] && |y.takes| == 1
    case Leave => Complete(y)
  }

  /** What a call has done when it returns: a post has put its message into the box, once; a
      trypost has, or found the box full; a fetch has taken one message; and a tryfetch has, or
      found the box empty. */
  predicate Complete(y: Story) {
    match y.call
    case CallPost(m) => y.puts == [m] && y.takes == []
    case CallTryPost(m) => y.takes == [] && (y.puts == [m] || (y.puts == [] && y.full))
    case CallFetch => y.puts == [] && |y.takes| == 1
    case CallTryFetch => y.puts == [] && (|y.takes| == 1 || (y.takes == [] && y.empty))
    case _ => false
  }

  lemma StoryStep(s: State, t: Tid, a: Action, y: Story)
    requires Enabled(s, t, a) && !s.pc[t].Idle? && Fits(s.pc[t], y)
    ensures var s' := Step(s, t, a);
      && t in s'.pc && s'.pc[t] != s.pc[t]
      && (s'.pc[t].Idle? || Fits(s'.pc[t], Told(y, s, s', Inside(s.pc[t]))))
  {
    var s' := Step(s, t, a);
    assert s'.posted[|s.posted|..] == if s.pc[t].Stored? then [s.pc[t].m] else [];
    if s'.fetched != s.fetched { assert s'.fetched[|s.fetched|..] == [s.msgs[s.first % SIZE]]; }
  }

  /** In every run every call is as far as its program counter says. */
  lemma {:induction false} StoryAlways(r: seq<State>, i: nat, t: Tid)
    requires Run(r) && i < |r| && t in r[i].pc && !r[i].pc[t].Idle?
    ensures StoryOf(r, i, t).Some? && Fits(r[i].pc[t], StoryOf(r, i, t).value)
  {
    assert i > 0;
    assert StepTo(r, i);
    if t in r[i - 1].pc && !r[i - 1].pc[t].Idle? { StoryAlways(r, i - 1, t); }
    StoryNext(r, i, t);
  }

  lemma {:induction false} StoryNext(r: seq<State>, i: nat, t: Tid)
    requires 0 < i < |r| && Next(r[i - 1], r[i]) && t in r[i].pc && !r[i].pc[t].Idle?
    requires t in r[i - 1].pc && !r[i - 1].pc[t].Idle? ==>
               StoryOf(r, i - 1, t).Some? && Fits(r[i - 1].pc[t], StoryOf(r, i - 1, t).value)
    ensures StoryOf(r, i, t).Some? && Fits(r[i].pc[t], StoryOf(r, i, t).value)
  {
    var s := r[i - 1];
    var u, a :| Enabled(s, u, a) && r[i] == Step(s, u, a);
    if u != t {
      OthersStay(s, u, a, t);
    } else if s.pc[t].Idle? {
      CallStarts(s, t, a);
    } else {
      StoryStep(s, t, a, StoryOf(r, i - 1, t).value);
    }
  }

  lemma OthersStay(s: State, u: Tid, a: Action, t: Tid)
    requires Enabled(s, u, a) && u != t && t in Step(s, u, a).pc
    ensures t in s.pc && Step(s, u, a).pc[t] == s.pc[t]
  {
    StepMoves(s, u, a);
  }

  lemma CallStarts(s: State, t: Tid, a: Action)
    requires Enabled(s, t, a) && s.pc[t].Idle?
    ensures var p := Step(s, t, a).pc[t]; !p.Idle? && Fits(p, Story(CallOf(p), [], [], false, false))
  {
  }

  /** So a call that returns has done what it should; only a fetch may also time out, and then it
      has taken nothing. */
  lemma CallsComplete(r: seq<State>, i: nat, t: Tid)
    requires Run(r) && i + 1 < |r| && t in r[i].pc && t in r[i + 1].pc && !r[i].pc[t].Idle? && r[i + 1].pc[t].Idle?
    ensures StoryOf(r, i, t).Some?
    ensures var y := StoryOf(r, i, t).value;
      Complete(y) || (y.call.CallFetch? && y.puts == [] && y.takes == [] && r[i].pc[t].FetchSleep?)
  {
    StoryAlways(r, i, t);
    assert StepTo(r, i + 1);
    var u, a :| Enabled(r[i], u, a) && r[i + 1] == Step(r[i], u, a);
    if u != t { OthersStay(r[i], u, a, t); }
    ReturnStep(r[i], t, a, StoryOf(r, i, t).value);
  }

  lemma ReturnStep(s: State, t: Tid, a: Action, y: Story)
    requires Enabled(s, t, a) && Fits(s.pc[t], y) && Step(s, t, a).pc[t].Idle?
    ensures Complete(y) || (y.call.CallFetch? && y.puts == [] && y.takes == [] && s.pc[t].FetchSleep?)
  {
  }

  /** And nothing else gets into the box: what a step puts there is the message of the call. */
  lemma OnlyArguments(r: seq<State>, i: nat)
    requires Run(r) && i + 1 < |r| && r[i + 1].posted != r[i].posted
    ensures exists t :: t in r[i].pc && StoryOf(r, i, t).Some? &&
              var call := StoryOf(r, i, t).value.call;
              (call.CallPost? || call.CallTryPost?) && r[i + 1].posted == r[i].posted + [call.m]
  {
    assert StepTo(r, i + 1);
    var t, a :| Enabled(r[i], t, a) && r[i + 1] == Step(r[i], t, a);
    StoryAlways(r, i, t);
  }
}
