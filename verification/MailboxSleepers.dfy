/** Which threads may share a mailbox (contrib/ports/unix/sys_arch.c) so that nobody sleeps
    beside what it waits for.  `not_empty` is signalled only when the box stops being empty, and
    both semaphores saturate, so one token can stand for several messages or several slots. */
module MailboxSleepers {
  import opened Mailbox

  // ---------------------------------------------------------------------------
  // Runs in which only some threads call the blocking functions

  predicate Posting(p: PC) {
    p.PostLock? || p.PostTest? || p.PostYield? || p.PostSleep? || p.PostRelock? || p.PostWoken?
  }

  /** Only `fetchers` call the blocking fetch and only `posters` the blocking post; the try
      variants are open to every thread. */
  datatype Cast = Cast(threads: set<Tid>, fetchers: set<Tid>, posters: set<Tid>)

  ghost predicate Keeps(c: Cast, s: State) {
    forall t | t in s.pc :: (Fetching(s.pc[t]) ==> t in c.fetchers) && (Posting(s.pc[t]) ==> t in c.posters)
  }

  ghost predicate RunOf(r: seq<State>, c: Cast) {
    && Run(r) && r[0].pc.Keys == c.threads
    && forall i: nat | i < |r| :: Keeps(c, r[i])
  }

  lemma {:induction false} SameThreads(r: seq<State>, i: nat)
    requires Run(r) && i < |r|
    ensures r[i].pc.Keys == r[0].pc.Keys
  {
    if i > 0 {
      SameThreads(r, i - 1);
      var t, a := StepOf(r, i);
      StepMoves(r[i - 1], t, a);
    }
  }

  lemma StepOf(r: seq<State>, i: nat) returns (t: Tid, a: Action)
    requires Run(r) && 0 < i < |r|
    ensures Enabled(r[i - 1], t, a) && r[i] == Step(r[i - 1], t, a)
  {
    assert StepTo(r, i);
    t, a :| Enabled(r[i - 1], t, a) && r[i] == Step(r[i - 1], t, a);
  }

  lemma Singleton(s: set<Tid>, x: Tid)
    requires x in s && |s| <= 1
    ensures s == {x}
  {
    assert |s - {x}| == 0;
  }

  lemma Pair(s: set<Tid>, x: Tid, y: Tid)
    requires x in s && y in s && x != y && |s| <= 2
    ensures s == {x, y}
  {
    assert |s - {x} - {y}| == 0;
  }

  lemma ThreeOf(threads: set<Tid>, some: set<Tid>) returns (a: Tid, b: Tid, p: Tid)
    requires some <= threads && |some| >= 2 && |threads| >= 3
    ensures a in some && b in some && p in threads && a != b && p != a && p != b
  {
    a :| a in some;
    assert |some - {a}| >= 1;
    b :| b in some - {a};
    assert |threads - {a} - {b}| >= 1;
    p :| p in threads - {a} - {b};
  }

  // ---------------------------------------------------------------------------
  // Fetchers

  /** No run leaves a fetcher asleep beside a message with no signal to come. */
  ghost predicate FetchersSafe(c: Cast) {
    forall r, i: nat, f | RunOf(r, c) && i < |r| && f in c.fetchers :: FetcherSafe(r[i], f)
  }

  /** Of two threads, a fetcher asleep beside a message is about to be signalled by the other,
      and both sleep only beside an empty box. */
  ghost predicate PairFetches(s: State, x: Tid, y: Tid) {
    && x in s.pc && y in s.pc
    && (s.pc[x].FetchSleep? && s.notEmpty == 0 && !s.Empty() ==> s.pc[y] == Bumped(true))
    && (s.pc[x].FetchSleep? && s.pc[y].FetchSleep? ==> s.Empty())
  }

  lemma PairFetchesStep(s: State, t: Tid, a: Action, x: Tid, y: Tid)
    requires Enabled(s, t, a) && Core(s) && s.pc.Keys == {x, y} && x != y
    requires PairFetches(s, x, y) && PairFetches(s, y, x)
    ensures PairFetches(Step(s, t, a), x, y)
  {
    assert t == x || t == y;
    StepMoves(s, t, a);
  }

  lemma {:induction false} PairFetchesAlways(r: seq<State>, i: nat, x: Tid, y: Tid)
    requires Run(r) && i < |r| && r[0].pc.Keys == {x, y} && x != y
    ensures PairFetches(r[i], x, y) && PairFetches(r[i], y, x)
  {
    if i > 0 {
      PairFetchesAlways(r, i - 1, x, y);
      CoreAlways(r, i - 1);
      SameThreads(r, i - 1);
      var t, a := StepOf(r, i);
      PairFetchesStep(r[i - 1], t, a, x, y);
      PairFetchesStep(r[i - 1], t, a, y, x);
    }
  }

  lemma OneFetcherSafe(r: seq<State>, c: Cast, i: nat, f: Tid)
    requires RunOf(r, c) && i < |r| && f in c.fetchers && |c.fetchers| <= 1
    ensures FetcherSafe(r[i], f)
  {
    Singleton(c.fetchers, f);
    forall j | 0 <= j < |r| ensures SoleFetcher(r[j], f) { assert Keeps(c, r[j]); }
    SafeAlways(r, f, i);
  }

  lemma TwoThreadsFetchSafe(r: seq<State>, i: nat, f: Tid)
    requires Run(r) && i < |r| && |r[0].pc.Keys| <= 2
    ensures FetcherSafe(r[i], f)
  {
    SameThreads(r, i);
    if f in r[i].pc {
      if |r[0].pc.Keys - {f}| == 0 {
        Singleton(r[0].pc.Keys, f);
        forall j | 0 <= j < |r| ensures SoleFetcher(r[j], f) { SameThreads(r, j); }
        SafeAlways(r, f, i);
      } else {
        var y :| y in r[0].pc.Keys - {f};
        Pair(r[0].pc.Keys, f, y);
        PairFetchesAlways(r, i, f, y);
      }
    }
  }

  /** Nobody is left asleep beside a message, in any run, exactly when at most one thread uses
      the blocking fetch or there are at most two threads at all. */
  lemma FetchersSafeIff(c: Cast)
    requires c.fetchers <= c.threads
    ensures FetchersSafe(c) <==> |c.fetchers| <= 1 || |c.threads| <= 2
  {
    if |c.fetchers| <= 1 || |c.threads| <= 2 {
      forall r, i: nat, f | RunOf(r, c) && i < |r| && f in c.fetchers ensures FetcherSafe(r[i], f) {
        if |c.threads| <= 2 { TwoThreadsFetchSafe(r, i, f); } else { OneFetcherSafe(r, c, i, f); }
      }
    } else {
      var a, b, p := ThreeOf(c.threads, c.fetchers);
      var r := TwoFetchersStrand(c, p, a, b);
      assert !FetcherSafe(r[|r| - 1], b) by { NoneInside(r[|r| - 1]); }
    }
  }

  lemma NoneInside(s: State)
    requires AllBlocked(s)
    ensures forall t | t in s.pc :: !Inside(s.pc[t]) && (s.mutex != 0 ==> !WaitsMutex(s.pc[t]))
  {
    forall t | t in s.pc ensures !Inside(s.pc[t]) && (s.mutex != 0 ==> !WaitsMutex(s.pc[t])) {
      assert s.pc[t].Idle? || Blocked(s, t);
    }
  }

  // ---------------------------------------------------------------------------
  // Posters

  ghost predicate SomeTaken(s: State) { exists t :: t in s.pc && s.pc[t].Taken? }

  /** A sleeping poster that no token will wake faces a full box, unless a fetcher is just about
      to signal. */
  ghost predicate RoomSafe(s: State, p: Tid) {
    p in s.pc && s.pc[p].PostSleep? && s.notFull == 0 && !s.Full() ==> SomeTaken(s)
  }

  /** No run leaves a poster asleep beside a box with room and no signal to come. */
  ghost predicate RoomForAll(c: Cast) {
    forall r, i: nat, p | RunOf(r, c) && i < |r| && p in c.posters :: RoomSafe(r[i], p)
  }

  ghost predicate SolePoster(s: State, p: Tid) { forall t | t in s.pc && Posting(s.pc[t]) :: t == p }

  lemma RoomSafeStep(s: State, t: Tid, a: Action, p: Tid)
    requires Enabled(s, t, a) && Core(s) && SolePoster(s, p) && RoomSafe(s, p)
    ensures RoomSafe(Step(s, t, a), p)
  {
    var s' := Step(s, t, a);
    StepMoves(s, t, a);
    if p in s'.pc && s'.pc[p].PostSleep? && s'.notFull == 0 && !s'.Full() {
      assert p in Waiters(s);
      assert s.waitSend > 0;
      if s'.pc[t].Taken? {
        assert SomeTaken(s');
      } else {
        assert SomeTaken(s);
        var u :| u in s.pc && s.pc[u].Taken?;
        assert u != t && s'.pc[u].Taken?;
      }
    }
  }

  lemma {:induction false} OnePosterSafe(r: seq<State>, p: Tid, i: nat)
    requires Run(r) && i < |r| && forall j: nat | j < |r| :: SolePoster(r[j], p)
    ensures RoomSafe(r[i], p)
  {
    if i > 0 {
      OnePosterSafe(r, p, i - 1);
      CoreAlways(r, i - 1);
      var t, a := StepOf(r, i);
      RoomSafeStep(r[i - 1], t, a, p);
    }
  }

  /** Of two threads, a poster asleep beside room is about to be signalled by the other, and both
      sleep only beside a full box. */
  ghost predicate PairPosts(s: State, x: Tid, y: Tid) {
    && x in s.pc && y in s.pc
    && (s.pc[x].PostSleep? && s.notFull == 0 && !s.Full() ==> s.pc[y].Taken?)
    && (s.pc[x].PostSleep? && s.pc[y].PostSleep? ==> s.Full())
  }

  lemma PairPostsStep(s: State, t: Tid, a: Action, x: Tid, y: Tid)
    requires Enabled(s, t, a) && Core(s) && s.pc.Keys == {x, y} && x != y
    requires PairPosts(s, x, y) && PairPosts(s, y, x)
    ensures PairPosts(Step(s, t, a), x, y)
  {
    assert t == x || t == y;
    StepMoves(s, t, a);
    if s.pc[x].PostSleep? { assert x in Waiters(s); }
  }

  lemma {:induction false} PairPostsAlways(r: seq<State>, i: nat, x: Tid, y: Tid)
    requires Run(r) && i < |r| && r[0].pc.Keys == {x, y} && x != y
    ensures PairPosts(r[i], x, y) && PairPosts(r[i], y, x)
  {
    if i > 0 {
      PairPostsAlways(r, i - 1, x, y);
      CoreAlways(r, i - 1);
      SameThreads(r, i - 1);
      var t, a := StepOf(r, i);
      PairPostsStep(r[i - 1], t, a, x, y);
      PairPostsStep(r[i - 1], t, a, y, x);
    }
  }

  lemma TwoThreadsPostSafe(r: seq<State>, i: nat, p: Tid)
    requires Run(r) && i < |r| && |r[0].pc.Keys| <= 2
    ensures RoomSafe(r[i], p)
  {
    SameThreads(r, i);
    if p in r[i].pc {
      if |r[0].pc.Keys - {p}| == 0 {
        Singleton(r[0].pc.Keys, p);
        forall j: nat | j < |r| ensures SolePoster(r[j], p) { SameThreads(r, j); }
        OnePosterSafe(r, p, i);
      } else {
        var y :| y in r[0].pc.Keys - {p};
        Pair(r[0].pc.Keys, p, y);
        PairPostsAlways(r, i, p, y);
      }
    }
  }

  /** Nobody is left asleep beside a box with room, in any run, exactly when at most one thread
      uses the blocking post or there are at most two threads at all. */
  lemma PostersSafeIff(c: Cast)
    requires c.posters <= c.threads
    ensures RoomForAll(c) <==> |c.posters| <= 1 || |c.threads| <= 2
  {
    if |c.posters| <= 1 || |c.threads| <= 2 {
      forall r, i: nat, p | RunOf(r, c) && i < |r| && p in c.posters ensures RoomSafe(r[i], p) {
        if |c.threads| <= 2 {
          TwoThreadsPostSafe(r, i, p);
        } else {
          Singleton(c.posters, p);
          forall j: nat | j < |r| ensures SolePoster(r[j], p) { assert Keeps(c, r[j]); }
          OnePosterSafe(r, p, i);
        }
      }
    } else {
      var a, b, f := ThreeOf(c.threads, c.posters);
      var r := TwoPostersStrand(c, f, a, b);
      assert !RoomSafe(r[|r| - 1], b) by { NoneInside(r[|r| - 1]); }
    }
  }

  // ---------------------------------------------------------------------------
  // States that a run reaches

  ghost predicate Reached(c: Cast, s: State) { exists r :: RunOf(r, c) && |r| > 0 && r[|r| - 1] == s }

  lemma ReachedStart(c: Cast) returns (s: State)
    ensures Reached(c, s) && Init(s) && s.pc.Keys == c.threads
  {
    s := State(0, 0, seq(SIZE, _ => 0), 0, 0, 0, 1, map t | t in c.threads :: Idle, [], []);
    assert RunOf([s], c);
    assert [s][|[s]| - 1] == s;
  }

  predicate Allowed(c: Cast, t: Tid, a: Action) {
    (a.CallFetch? ==> t in c.fetchers) && (a.CallPost? ==> t in c.posters)
  }

  lemma KeepsStep(c: Cast, s: State, t: Tid, a: Action)
    requires Keeps(c, s) && Enabled(s, t, a) && Allowed(c, t, a)
    ensures Keeps(c, Step(s, t, a))
  {
    StepMoves(s, t, a);
  }

  lemma ReachedStep(c: Cast, s: State, t: Tid, a: Action)
    requires Reached(c, s) && Enabled(s, t, a) && Allowed(c, t, a)
    ensures Reached(c, Step(s, t, a))
  {
    var r :| RunOf(r, c) && |r| > 0 && r[|r| - 1] == s;
    var s' := Step(s, t, a);
    var r' := r + [s'];
    assert Keeps(c, r[|r| - 1]);
    KeepsStep(c, s, t, a);
    assert Next(s, s');
    forall i | 0 < i < |r'| ensures StepTo(r', i) { if i < |r| { assert StepTo(r, i); } }
    assert RunOf(r', c) && r'[|r'| - 1] == s';
  }

  /** A set of states that no allowed step leaves. */
  ghost predicate Closed(c: Cast, w: iset<State>) {
    forall s, t, a | s in w && Enabled(s, t, a) && Allowed(c, t, a) :: Step(s, t, a) in w
  }

  lemma AllReached(c: Cast, w: iset<State>)
    requires forall s :: s in w <==> Reached(c, s)
    ensures Closed(c, w)
  {
    forall s, t, a | s in w && Enabled(s, t, a) && Allowed(c, t, a) ensures Step(s, t, a) in w {
      ReachedStep(c, s, t, a);
    }
  }

  lemma Moved(c: Cast, w: iset<State>, s: State, t: Tid, a: Action)
    requires Closed(c, w) && s in w && Enabled(s, t, a) && Allowed(c, t, a)
    ensures Step(s, t, a) in w
  {
  }

  lemma RunTo(c: Cast, s: State) returns (r: seq<State>)
    requires Reached(c, s)
    ensures RunOf(r, c) && |r| > 0 && r[|r| - 1] == s
  {
    r :| RunOf(r, c) && |r| > 0 && r[|r| - 1] == s;
  }

  /** A fetcher that finds the box empty goes to sleep. */
  lemma FetcherSleeps(c: Cast, w: iset<State>, s: State, t: Tid)
    requires Closed(c, w) && s in w && t in c.fetchers && t in s.pc && s.pc[t] == Idle
    requires s.mutex == 1 && s.Empty() && |s.msgs| == SIZE
    ensures s.To(t, FetchSleep) in w
  {
    Moved(c, w, s, t, CallFetch);
    var s1 := s.To(t, FetchLock);
    Moved(c, w, s1, t, Go);
    var s2 := s.(mutex := 0).To(t, FetchTest);
    assert Step(s1, t, Go) == s2;
    Moved(c, w, s2, t, Go);
    var s3 := s.(mutex := 0).To(t, FetchYield);
    assert Step(s2, t, Go) == s3;
    Moved(c, w, s3, t, Go);
    assert Step(s3, t, Go) == s.To(t, FetchSleep);
  }

  /** What a completed post leaves behind. */
  function Posted(s: State, m: Msg): State
    requires |s.msgs| == SIZE
  {
    s.(msgs := s.msgs[s.last % SIZE := m], posted := s.posted + [m], last := s.last + 1,
       notEmpty := if s.Empty() then Signal(s.notEmpty) else s.notEmpty)
  }

  /** The common tail of a post, from the test that finds room. */
  lemma PostTail(c: Cast, w: iset<State>, s: State, t: Tid, m: Msg)
    requires Closed(c, w) && t in s.pc && s.mutex == 0 && |s.msgs| == SIZE && !s.Full()
    requires s.To(t, TryTest(m)) in w || s.To(t, PostTest(m)) in w
    ensures Posted(s, m).(mutex := 1).To(t, Idle) in w
  {
    var s1 := s.(msgs := s.msgs[s.last % SIZE := m]);
    if s.To(t, TryTest(m)) in w {
      Moved(c, w, s.To(t, TryTest(m)), t, Go);
      assert Step(s.To(t, TryTest(m)), t, Go) == s1.To(t, Stored(m));
    } else {
      Moved(c, w, s.To(t, PostTest(m)), t, Go);
      assert Step(s.To(t, PostTest(m)), t, Go) == s1.To(t, Stored(m));
    }
    PostEnd(c, w, s1, t, m);
    assert s1.(posted := s.posted + [m], last := s.last + 1,
               notEmpty := if s.Empty() then Signal(s.notEmpty) else s.notEmpty) == Posted(s, m);
  }

  lemma PostEnd(c: Cast, w: iset<State>, s: State, t: Tid, m: Msg)
    requires Closed(c, w) && t in s.pc && s.mutex == 0 && |s.msgs| == SIZE && s.To(t, Stored(m)) in w
    ensures s.(posted := s.posted + [m], last := s.last + 1, mutex := 1,
               notEmpty := if s.Empty() then Signal(s.notEmpty) else s.notEmpty).To(t, Idle) in w
  {
    Moved(c, w, s.To(t, Stored(m)), t, Go);
    var s2 := s.(posted := s.posted + [m], last := s.last + 1);
    assert Step(s.To(t, Stored(m)), t, Go) == s2.To(t, Bumped(s.Empty()));
    Moved(c, w, s2.To(t, Bumped(s.Empty())), t, Go);
    var s3 := s2.(notEmpty := if s.Empty() then Signal(s.notEmpty) else s.notEmpty);
    assert Step(s2.To(t, Bumped(s.Empty())), t, Go) == s3.To(t, Leave);
    Moved(c, w, s3.To(t, Leave), t, Go);
    assert Step(s3.To(t, Leave), t, Go) == s3.(mutex := 1).To(t, Idle);
  }

  /** A post into a box with room, run to completion without interruption. */
  lemma PostOne(c: Cast, w: iset<State>, s: State, t: Tid, m: Msg)
    requires Closed(c, w) && s in w && t in s.pc && s.pc[t] == Idle && s.mutex == 1 && !s.Full() && |s.msgs| == SIZE
    ensures Posted(s, m) in w
  {
    Moved(c, w, s, t, CallTryPost(m));
    var s1 := s.To(t, TryLock(m));
    Moved(c, w, s1, t, Go);
    assert Step(s1, t, Go) == s.(mutex := 0).To(t, TryTest(m));
    PostTail(c, w, s.(mutex := 0), t, m);
    assert Posted(s.(mutex := 0), m).(mutex := 1).To(t, Idle) == Posted(s, m) by {
      assert s.pc[t := Idle] == s.pc;
    }
  }

  /** What a completed fetch leaves behind. */
  function Fetched(s: State): State
    requires |s.msgs| == SIZE
  {
    s.(fetched := s.fetched + [s.msgs[s.first % SIZE]], first := s.first + 1,
       notFull := if s.waitSend != 0 then Signal(s.notFull) else s.notFull)
  }

  /** The common tail of a fetch, from the test that finds a message. */
  lemma FetchTail(c: Cast, w: iset<State>, s: State, t: Tid)
    requires Closed(c, w) && t in s.pc && s.mutex == 0 && |s.msgs| == SIZE && !s.Empty()
    requires s.To(t, FetchTest) in w || s.To(t, TryFetchTest) in w
    ensures Fetched(s).(mutex := 1).To(t, Idle) in w
  {
    var s1 := s.(fetched := s.fetched + [s.msgs[s.first % SIZE]], first := s.first + 1);
    if s.To(t, FetchTest) in w {
      Moved(c, w, s.To(t, FetchTest), t, Go);
      assert Step(s.To(t, FetchTest), t, Go) == s1.To(t, Taken);
    } else {
      Moved(c, w, s.To(t, TryFetchTest), t, Go);
      assert Step(s.To(t, TryFetchTest), t, Go) == s1.To(t, Taken);
    }
    Moved(c, w, s1.To(t, Taken), t, Go);
    var s2 := Fetched(s);
    assert Step(s1.To(t, Taken), t, Go) == s2.To(t, Leave);
    LeaveBox(c, w, s2, t);
  }

  lemma LeaveBox(c: Cast, w: iset<State>, s: State, t: Tid)
    requires Closed(c, w) && t in s.pc && s.mutex == 0 && |s.msgs| == SIZE && s.To(t, Leave) in w
    ensures s.(mutex := 1).To(t, Idle) in w
  {
    Moved(c, w, s.To(t, Leave), t, Go);
    assert Step(s.To(t, Leave), t, Go) == s.(mutex := 1).To(t, Idle);
  }

  /** A sleeping fetcher takes the token and one message. */
  lemma WakeAndFetch(c: Cast, w: iset<State>, s: State, t: Tid)
    requires Closed(c, w) && s in w && t in s.pc && s.pc[t] == FetchSleep && s.mutex == 1 && s.notEmpty == 1
    requires !s.Empty() && |s.msgs| == SIZE
    ensures Fetched(s.(notEmpty := 0)).To(t, Idle) in w
  {
    Moved(c, w, s, t, Go);
    var s1 := s.(notEmpty := 0).To(t, FetchRelock);
    assert Step(s, t, Go) == s1;
    Moved(c, w, s1, t, Go);
    var s2 := s.(notEmpty := 0, mutex := 0);
    assert Step(s1, t, Go) == s2.To(t, FetchTest);
    FetchTail(c, w, s2, t);
    assert Fetched(s2).(mutex := 1).To(t, Idle) == Fetched(s.(notEmpty := 0)).To(t, Idle);
  }

  /** Both fetchers asleep, and two messages, of which the first left a token. */
  lemma TwoForFetchers(c: Cast, w: iset<State>, p: Tid, a: Tid, b: Tid) returns (s: State)
    requires Closed(c, w) && forall x :: x in w <==> Reached(c, x)
    requires {p, a, b} <= c.threads && a != b && p != a && p != b && a in c.fetchers && b in c.fetchers
    ensures s in w && s.mutex == 1 && |s.msgs| == SIZE && s.notEmpty == 1 && s.first == 0 && s.last == 2
    ensures {p, a, b} <= s.pc.Keys
    ensures forall t | t in s.pc :: s.pc[t] == if t == a || t == b then FetchSleep else Idle
  {
    s := ReachedStart(c);
    FetcherSleeps(c, w, s, a);
    s := s.To(a, FetchSleep);
    FetcherSleeps(c, w, s, b);
    s := s.To(b, FetchSleep);
    PostOne(c, w, s, p, 10);
    s := Posted(s, 10);
    PostOne(c, w, s, p, 20);
    s := Posted(s, 20);
  }

  /** Two blocking fetchers: the second message causes no empty-to-non-empty edge, so one fetcher
      stays asleep beside a non-empty box and nobody is left to wake it. */
  lemma TwoFetchersStrand(c: Cast, p: Tid, a: Tid, b: Tid) returns (r: seq<State>)
    requires {p, a, b} <= c.threads && a != b && p != a && p != b && a in c.fetchers && b in c.fetchers
    ensures RunOf(r, c) && |r| > 0
    ensures var s := r[|r| - 1];
      AllBlocked(s) && !s.Empty() && b in s.pc && s.pc[b] == FetchSleep && s.notEmpty == 0
  {
    var w := iset x | Reached(c, x);
    AllReached(c, w);
    var s := TwoForFetchers(c, w, p, a, b);
    WakeAndFetch(c, w, s, a);
    r := RunTo(c, Fetched(s.(notEmpty := 0)).To(a, Idle));
  }

  // ---------------------------------------------------------------------------
  // Two sleeping posters

  /** n posts by an idle thread, as long as there is room. */
  lemma {:induction false} Fill(c: Cast, w: iset<State>, s: State, t: Tid, n: nat) returns (s': State)
    requires Closed(c, w) && s in w && t in s.pc && s.pc[t] == Idle && s.mutex == 1 && |s.msgs| == SIZE
    requires s.last + n < s.first + SIZE
    ensures s' in w && s'.pc == s.pc && s'.mutex == 1 && |s'.msgs| == SIZE && s'.waitSend == s.waitSend
    ensures s'.last == s.last + n && s'.first == s.first && s'.notFull == s.notFull
    decreases n
  {
    if n == 0 {
      s' := s;
    } else {
      PostOne(c, w, s, t, 0);
      s' := Fill(c, w, Posted(s, 0), t, n - 1);
    }
  }

  /** A poster that finds the box full goes to sleep. */
  lemma PosterSleeps(c: Cast, w: iset<State>, s: State, t: Tid)
    requires Closed(c, w) && s in w && t in c.posters && t in s.pc && s.pc[t] == Idle
    requires s.mutex == 1 && s.Full() && |s.msgs| == SIZE
    ensures s.(waitSend := s.waitSend + 1).To(t, PostSleep(1)) in w
  {
    Moved(c, w, s, t, CallPost(1));
    var s1 := s.To(t, PostLock(1));
    Moved(c, w, s1, t, Go);
    var s2 := s.(mutex := 0).To(t, PostTest(1));
    assert Step(s1, t, Go) == s2;
    Moved(c, w, s2, t, Go);
    var s3 := s.(mutex := 0, waitSend := s.waitSend + 1).To(t, PostYield(1));
    assert Step(s2, t, Go) == s3;
    Moved(c, w, s3, t, Go);
    assert Step(s3, t, Go) == s.(waitSend := s.waitSend + 1).To(t, PostSleep(1));
  }

  /** A fetch that does not wait, run to completion. */
  lemma FetchOne(c: Cast, w: iset<State>, s: State, t: Tid)
    requires Closed(c, w) && s in w && t in s.pc && s.pc[t] == Idle && s.mutex == 1 && !s.Empty() && |s.msgs| == SIZE
    ensures Fetched(s) in w
  {
    Moved(c, w, s, t, CallTryFetch);
    var s1 := s.To(t, TryFetchLock);
    Moved(c, w, s1, t, Go);
    assert Step(s1, t, Go) == s.(mutex := 0).To(t, TryFetchTest);
    FetchTail(c, w, s.(mutex := 0), t);
    assert Fetched(s.(mutex := 0)).(mutex := 1).To(t, Idle) == Fetched(s) by {
      assert s.pc[t := Idle] == s.pc;
    }
  }

  /** A sleeping poster takes the token and completes its post. */
  lemma WakeAndPost(c: Cast, w: iset<State>, s: State, t: Tid)
    requires Closed(c, w) && s in w && t in s.pc && s.pc[t] == PostSleep(1) && s.mutex == 1 && s.notFull == 1
    requires !s.Full() && |s.msgs| == SIZE
    ensures Posted(s.(notFull := 0, waitSend := s.waitSend - 1), 1).To(t, Idle) in w
  {
    Moved(c, w, s, t, Go);
    var s1 := s.(notFull := 0).To(t, PostRelock(1));
    assert Step(s, t, Go) == s1;
    Moved(c, w, s1, t, Go);
    var s2 := s.(notFull := 0, mutex := 0).To(t, PostWoken(1));
    assert Step(s1, t, Go) == s2;
    Moved(c, w, s2, t, Go);
    var s3 := s.(notFull := 0, mutex := 0, waitSend := s.waitSend - 1);
    assert Step(s2, t, Go) == s3.To(t, PostTest(1));
    PostTail(c, w, s3, t, 1);
    assert Posted(s3, 1).(mutex := 1).To(t, Idle) ==
           Posted(s.(notFull := 0, waitSend := s.waitSend - 1), 1).To(t, Idle);
  }

  /** Both posters asleep beside a full box. */
  lemma PostersAsleep(c: Cast, w: iset<State>, f: Tid, a: Tid, b: Tid) returns (s: State)
    requires Closed(c, w) && forall x :: x in w <==> Reached(c, x)
    requires {f, a, b} <= c.threads && a != b && f != a && f != b && a in c.posters && b in c.posters
    ensures s in w && s.mutex == 1 && |s.msgs| == SIZE && s.waitSend == 2 && s.notFull == 0
    ensures s.first == 0 && s.last == SIZE - 1 && {f, a, b} <= s.pc.Keys
    ensures forall t | t in s.pc :: s.pc[t] == if t == a || t == b then PostSleep(1) else Idle
  {
    s := ReachedStart(c);
    s := Fill(c, w, s, f, SIZE - 1);
    PosterSleeps(c, w, s, a);
    s := s.(waitSend := s.waitSend + 1).To(a, PostSleep(1));
    PosterSleeps(c, w, s, b);
    s := s.(waitSend := s.waitSend + 1).To(b, PostSleep(1));
  }

  /** The same after two fetches, which leave one token. */
  lemma RoomForTwo(c: Cast, w: iset<State>, f: Tid, a: Tid, b: Tid) returns (s: State)
    requires Closed(c, w) && forall x :: x in w <==> Reached(c, x)
    requires {f, a, b} <= c.threads && a != b && f != a && f != b && a in c.posters && b in c.posters
    ensures s in w && s.mutex == 1 && |s.msgs| == SIZE && s.waitSend == 2 && s.notFull == 1
    ensures s.first == 2 && s.last == SIZE - 1 && {f, a, b} <= s.pc.Keys
    ensures forall t | t in s.pc :: s.pc[t] == if t == a || t == b then PostSleep(1) else Idle
  {
    s := PostersAsleep(c, w, f, a, b);
    FetchOne(c, w, s, f);
    s := Fetched(s);
    FetchOne(c, w, s, f);
    s := Fetched(s);
  }

  /** Two blocking posters asleep beside a full box: two fetches leave one token, which the first
      poster uses up, and the other stays asleep beside a box with room. */
  lemma TwoPostersStrand(c: Cast, f: Tid, a: Tid, b: Tid) returns (r: seq<State>)
    requires {f, a, b} <= c.threads && a != b && f != a && f != b && a in c.posters && b in c.posters
    ensures RunOf(r, c) && |r| > 0
    ensures var s := r[|r| - 1];
      AllBlocked(s) && !s.Full() && b in s.pc && s.pc[b] == PostSleep(1) && s.notFull == 0
  {
    var w := iset x | Reached(c, x);
    AllReached(c, w);
    var s := RoomForTwo(c, w, f, a, b);
    WakeAndPost(c, w, s, a);
    r := RunTo(c, Posted(s.(notFull := 0, waitSend := s.waitSend - 1), 1).To(a, Idle));
  }
}
