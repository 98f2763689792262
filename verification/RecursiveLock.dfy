/** The UNIX port's recursive lock (sys_arch_protect / sys_arch_unprotect in
    contrib/ports/unix/sys_arch.c) as a step-level interleaving system.  Ownership is
    tested by reading `lwprot_thread` without holding the mutex, so every load and store
    of the two shared variables is a step of its own. */
module RecursiveLock {

  type Tid = int

  /** The value of lwprot_thread that means "nobody". */
  const DEAD: Tid := 0xDEAD

  datatype PC =
    | Rest                     // outside both functions
    // sys_arch_protect
    | ProtectTest              // reads lwprot_thread, no lock held
    | ProtectLock              // waits for the mutex
    | ProtectOwn               // holds the mutex, stores its id
    | ProtectSet               // stores lwprot_count = 1
    | IncLoad                  // recursive entry: loads lwprot_count
    | IncStore(v: int)         // and stores it plus one
    // sys_arch_unprotect; d is the caller's nesting depth before the call
    | UnprotectTest(d: nat)    // reads lwprot_thread, no lock held
    | DecLoad(d: nat)
    | DecStore(d: nat, v: int)
    | Disown                   // stores "nobody"
    | Unlock                   // releases the mutex

  datatype Action = CallProtect | CallUnprotect | Go

  /** `depth[t]` is what the calls of t alone determine: completed protects that no
      unprotect has answered yet.  No step reads it to decide what to do. */
  datatype State = State(mutex: set<Tid>, thread: Tid, count: int, pc: map<Tid, PC>, depth: map<Tid, nat>) {
    function To(t: Tid, p: PC): State { this.(pc := pc[t := p]) }
    function Depth(t: Tid, d: nat): State { this.(depth := depth[t := d]) }
  }

  ghost predicate Init(s: State) {
    && s.mutex == {} && s.thread == DEAD && s.count == 0
    && s.depth.Keys == s.pc.Keys
    && forall t | t in s.pc :: s.pc[t] == Rest && s.depth[t] == 0
  }

  predicate Enabled(s: State, t: Tid, a: Action) {
    && t in s.pc && t in s.depth
    && (s.pc[t].Rest? <==> !a.Go?)
    && (s.pc[t].ProtectLock? ==> s.mutex == {})
  }

  function Step(s: State, t: Tid, a: Action): State
    requires Enabled(s, t, a)
  {
    match s.pc[t]
    case Rest =>
      if a.CallProtect? then s.To(t, ProtectTest)
      else s.To(t, UnprotectTest(s.depth[t])).Depth(t, if s.depth[t] > 0 then s.depth[t] - 1 else 0)
    case ProtectTest => s.To(t, if s.thread != t then ProtectLock else IncLoad)
    case ProtectLock => s.(mutex := {t}).To(t, ProtectOwn)
    case ProtectOwn => s.(thread := t).To(t, ProtectSet)
    case ProtectSet => s.(count := 1).To(t, Rest).Depth(t, s.depth[t] + 1)
    case IncLoad => s.To(t, IncStore(s.count))
    case IncStore(v) => s.(count := v + 1).To(t, Rest).Depth(t, s.depth[t] + 1)
    case UnprotectTest(d) => s.To(t, if s.thread == t then DecLoad(d) else Rest)
    case DecLoad(d) => s.To(t, DecStore(d, s.count))
    case DecStore(_, v) => s.(count := v - 1).To(t, if v - 1 == 0 then Disown else Rest)
    case Disown => s.(thread := DEAD).To(t, Unlock)
    case Unlock => s.(mutex := s.mutex - {t}).To(t, Rest)
  }

  ghost predicate Next(s: State, s': State) {
    exists t: Tid, a: Action :: Enabled(s, t, a) && s' == Step(s, t, a)
  }

  ghost predicate Run(r: seq<State>) {
    |r| > 0 && Init(r[0]) && forall i | 0 < i < |r| :: StepTo(r, i)
  }

  ghost predicate StepTo(r: seq<State>, i: nat)
    requires 0 < i < |r|
  {
    Next(r[i - 1], r[i])
  }

  /** What the lock promises its callers: a thread inside holds the mutex, and nobody
      else is inside; at rest the counter is the owner's nesting depth; and a thread
      that skips the mutex (the recursive branch) is one that already holds it. */
  ghost predicate Sound(s: State) {
    && (forall t | t in s.pc && t in s.depth && s.depth[t] > 0 :: s.mutex == {t})
    && (forall t | t in s.pc && t in s.depth && s.depth[t] > 0 && s.pc[t].Rest? :: s.count == s.depth[t])
    && (forall t | t in s.pc && (s.pc[t].IncLoad? || s.pc[t].IncStore?) :: s.mutex == {t})
    && (forall t | t in s.pc && t in s.depth && s.depth[t] == 0 && s.pc[t].Rest? :: t !in s.mutex)
  }

  /** How one thread's program counter and depth fit the shared variables. */
  predicate Local(s: State, t: Tid)
    requires t in s.pc && t in s.depth
  {
    var d := s.depth[t];
    match s.pc[t]
    case Rest | ProtectTest =>
      if d > 0 then s.mutex == {t} && s.thread == t && s.count == d else t !in s.mutex && s.thread != t
    case ProtectLock => d == 0 && t !in s.mutex && s.thread != t
    case ProtectOwn => d == 0 && s.mutex == {t} && s.thread == DEAD
    case ProtectSet => d == 0 && s.mutex == {t} && s.thread == t
    case IncLoad => d > 0 && s.mutex == {t} && s.thread == t && s.count == d
    case IncStore(v) => d > 0 && s.mutex == {t} && s.thread == t && v == s.count == d
    case UnprotectTest(e) =>
      && d == (if e > 0 then e - 1 else 0)
      && (if e > 0 then s.mutex == {t} && s.thread == t && s.count == e else t !in s.mutex && s.thread != t)
    case DecLoad(e) => e > 0 && d == e - 1 && s.mutex == {t} && s.thread == t && s.count == e
    case DecStore(e, v) => e > 0 && d == e - 1 && s.mutex == {t} && s.thread == t && v == s.count == e
    case Disown => d == 0 && s.mutex == {t} && s.thread == t
    case Unlock => d == 0 && s.mutex == {t} && s.thread == DEAD
  }

  ghost predicate Inv(s: State) {
    && s.depth.Keys == s.pc.Keys
    && DEAD !in s.pc
    && (s.mutex == {} ==> s.thread == DEAD)
    && (forall t | t in s.pc :: Local(s, t))
  }

  lemma OtherKept(s: State, t: Tid, a: Action, u: Tid)
    requires Enabled(s, t, a) && Inv(s) && u in s.pc && u != t
    ensures u in Step(s, t, a).pc && u in Step(s, t, a).depth && Local(Step(s, t, a), u)
  {
    assert Local(s, u) && Local(s, t);
    assert s.mutex == {t} ==> u !in s.mutex;
  }

  lemma OwnKept(s: State, t: Tid, a: Action)
    requires Enabled(s, t, a) && Local(s, t) && t != DEAD && (s.mutex == {} ==> s.thread == DEAD)
    ensures var s' := Step(s, t, a);
      && t in s'.pc && t in s'.depth && Local(s', t) && (s'.mutex == {} ==> s'.thread == DEAD)
      && s'.pc.Keys == s.pc.Keys && s'.depth.Keys == s.depth.Keys
  {
  }

  lemma InvStep(s: State, t: Tid, a: Action)
    requires Enabled(s, t, a) && Inv(s)
    ensures Inv(Step(s, t, a))
  {
    OwnKept(s, t, a);
    forall u | u in Step(s, t, a).pc && u != t ensures Local(Step(s, t, a), u) {
      OtherKept(s, t, a, u);
    }
  }

  lemma {:induction false} InvAlways(r: seq<State>, i: nat)
    requires Run(r) && i < |r| && DEAD !in r[0].pc
    ensures Inv(r[i])
  {
    if i > 0 {
      InvAlways(r, i - 1);
      assert StepTo(r, i);
      var t, a :| Enabled(r[i - 1], t, a) && r[i] == Step(r[i - 1], t, a);
      InvStep(r[i - 1], t, a);
    }
  }

  /** Every interleaving is sound, balanced calls or not: an unprotect at depth zero
      is ignored. */
  lemma SoundAlways(r: seq<State>, i: nat)
    requires Run(r) && i < |r| && DEAD !in r[0].pc
    ensures Sound(r[i])
    ensures forall t, u :: t in r[i].depth && u in r[i].depth && r[i].depth[t] > 0 && r[i].depth[u] > 0 ==> t == u
  {
    InvAlways(r, i);
    var s := r[i];
    assert forall t | t in s.pc :: Local(s, t);
    forall t, u | t in s.depth && u in s.depth && s.depth[t] > 0 && s.depth[u] > 0 ensures t == u {
      assert s.mutex == {t} && s.mutex == {u};
      assert t in s.mutex;
    }
  }

  // ---------------------------------------------------------------------------
  // What the depth is

  predicate Protecting(p: PC) {
    p.ProtectTest? || p.ProtectLock? || p.ProtectOwn? || p.ProtectSet? || p.IncLoad? || p.IncStore?
  }

  predicate Unprotecting(p: PC) { p.UnprotectTest? || p.DecLoad? || p.DecStore? || p.Disown? || p.Unlock? }

  /** The protects of t that have returned by state i, less the unprotects that were called; one
      with nothing to answer does not count. */
  function Balance(r: seq<State>, i: nat, t: Tid): nat
    requires i < |r|
  {
    if i == 0 then 0
    else
      var b := Balance(r, i - 1, t);
      if t !in r[i - 1].pc || t !in r[i].pc then b
      else if Protecting(r[i - 1].pc[t]) && r[i].pc[t].Rest? then b + 1
      else if r[i - 1].pc[t].Rest? && Unprotecting(r[i].pc[t]) && b > 0 then b - 1
      else b
  }

  /** In every run the depth is what the calls and returns of the thread make it. */
  lemma {:induction false} DepthIsBalance(r: seq<State>, i: nat, t: Tid)
    requires Run(r) && i < |r| && t in r[0].pc
    ensures t in r[i].pc && t in r[i].depth && r[i].depth[t] == Balance(r, i, t)
  {
    if i > 0 {
      DepthIsBalance(r, i - 1, t);
      assert StepTo(r, i);
      var u, a :| Enabled(r[i - 1], u, a) && r[i] == Step(r[i - 1], u, a);
      DepthStep(r[i - 1], u, a, t);
    }
  }

  lemma DepthStep(s: State, u: Tid, a: Action, t: Tid)
    requires Enabled(s, u, a) && t in s.pc && t in s.depth
    ensures var s' := Step(s, u, a);
      && t in s'.pc && t in s'.depth
      && s'.depth[t] == if Protecting(s.pc[t]) && s'.pc[t].Rest? then s.depth[t] + 1
                        else if s.pc[t].Rest? && Unprotecting(s'.pc[t]) && s.depth[t] > 0 then s.depth[t] - 1
                        else s.depth[t]
  {
  }

  /** So, in terms of calls alone: of all threads that have returned from more protects than they
      have called unprotects there is never more than one, and it holds the mutex. */
  lemma OneInside(r: seq<State>, i: nat, t: Tid, u: Tid)
    requires Run(r) && i < |r| && DEAD !in r[0].pc && t in r[0].pc && u in r[0].pc
    requires Balance(r, i, t) > 0
    ensures r[i].mutex == {t} && (Balance(r, i, u) > 0 ==> u == t)
    ensures r[i].pc.Keys == r[i].depth.Keys && t in r[i].pc && (r[i].pc[t].Rest? ==> r[i].count == Balance(r, i, t))
  {
    DepthIsBalance(r, i, t);
    DepthIsBalance(r, i, u);
    InvAlways(r, i);
    SoundAlways(r, i);
  }

  /** A thread whose id is 0xDEAD takes itself for the owner of a free lock. */
  lemma DeadIdSkipsMutex(s: State) returns (r: seq<State>)
    requires Init(s) && DEAD in s.pc
    ensures Run(r) && r[0] == s && !Sound(r[|r| - 1])
  {
    var s1 := Step(s, DEAD, CallProtect);
    var s2 := Step(s1, DEAD, Go);
    r := [s, s1, s2];
    assert Next(s, s1);
    assert Next(s1, s2);
    assert StepTo(r, 1) && StepTo(r, 2);
    assert s2.pc[DEAD] == IncLoad && s2.mutex == {};
  }

  ghost predicate AlwaysSound(threads: set<Tid>) {
    forall r: seq<State>, i: nat :: Run(r) && r[0].pc.Keys == threads && i < |r| ==> Sound(r[i])
  }

  /** The lock is sound for a set of threads exactly when none has the id 0xDEAD. */
  lemma SoundIffNoDeadId(threads: set<Tid>)
    ensures AlwaysSound(threads) <==> DEAD !in threads
  {
    if DEAD in threads {
      var s := State({}, DEAD, 0, map t | t in threads :: Rest, map t | t in threads :: 0);
      var r := DeadIdSkipsMutex(s);
      assert r[0].pc.Keys == threads;
    } else {
      forall r: seq<State>, i: nat | Run(r) && r[0].pc.Keys == threads && i < |r| ensures Sound(r[i]) {
        SoundAlways(r, i);
      }
    }
  }
}
