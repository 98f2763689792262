/** Receive events that reach a connection while lwip_accept is still making a socket for it
    (alloc_socket, lwip_accept and event_callback in lwip/src/api/sockets.c), in any
    interleaving. Until the socket is installed the connection's socket number, below zero,
    counts them. */
module AcceptEvents {

  /** A number as the s16_t field rcvevent keeps it. */
  function Wrap16(x: int): int { (x + 32768) % 65536 - 32768 }

  lemma WrapAdd(x: int, d: int)
    ensures Wrap16(Wrap16(x) + d) == Wrap16(x + d)
  {
  }

  datatype Event = RcvPlus | RcvMinus

  /** A thread in event_callback: it has read the socket number without protection, or knows the
      socket it is to update. */
  datatype Pc = Idle | Seen(evt: Event, s: int) | Routed(evt: Event, s: int)

  /** lwip_accept: before alloc_socket, with a slot claimed, with the slot's fields set, with the
      socket installed, or without a free slot. */
  datatype Accept = Start | Claimed(i: nat) | Ready(i: nat) | Installed(i: nat) | Full

  /** socket is the field of the netconn; taken and rcvevent those of the socket array. plus,
      minus and lost count the events of this connection. */
  datatype State = State(socket: int, taken: seq<bool>, rcvevent: seq<int>, accept: Accept, threads: seq<Pc>,
                         plus: nat, minus: nat, lost: nat)

  datatype Step =
    | Claim(i: nat) | NoSlot | Prepare | Install
    | Raise(t: nat, evt: Event) | Check(t: nat) | Apply(t: nat)

  predicate Enabled(s: State, step: Step) {
    match step
    case Claim(i) => s.accept.Start? && i < |s.taken| && !s.taken[i]
    case NoSlot => s.accept.Start? && forall i | 0 <= i < |s.taken| :: s.taken[i]
    case Prepare => s.accept.Claimed? && s.accept.i < |s.rcvevent|
    case Install => s.accept.Ready? && s.accept.i < |s.rcvevent|
    case Raise(t, _) => t < |s.threads| && s.threads[t].Idle?
    case Check(t) => t < |s.threads| && s.threads[t].Seen?
    case Apply(t) => t < |s.threads| && s.threads[t].Routed? && 0 <= s.threads[t].s < |s.rcvevent|
  }

  function Next(s: State, step: Step): State
    requires Enabled(s, step)
  {
    match step
    // alloc_socket, under protection
    case Claim(i) => s.(taken := s.taken[i := true], accept := Claimed(i))
    case NoSlot => s.(accept := Full)
    // alloc_socket, the rest
    case Prepare => s.(rcvevent := s.rcvevent[s.accept.i := 0], accept := Ready(s.accept.i))
    // lwip_accept, under protection
    case Install =>
      s.(rcvevent := s.rcvevent[s.accept.i := Wrap16(s.rcvevent[s.accept.i] + Wrap16(-1 - s.socket))],
         socket := s.accept.i, accept := Installed(s.accept.i))
    // event_callback reads the socket number
    case Raise(t, evt) =>
      s.(threads := s.threads[t := Seen(evt, s.socket)],
         plus := s.plus + (if evt.RcvPlus? then 1 else 0), minus := s.minus + (if evt.RcvMinus? then 1 else 0))
    // and, if that is below zero, reads it again under protection
    case Check(t) =>
      var pc := s.threads[t];
      if pc.s >= 0 then s.(threads := s.threads[t := Routed(pc.evt, pc.s)])
      else if s.socket >= 0 then s.(threads := s.threads[t := Routed(pc.evt, s.socket)])
      else if pc.evt.RcvPlus? then s.(threads := s.threads[t := Idle], socket := s.socket - 1)
      else s.(threads := s.threads[t := Idle], lost := s.lost + 1)
    // then updates the socket, under protection
    case Apply(t) =>
      var pc := s.threads[t];
      s.(threads := s.threads[t := Idle],
         rcvevent := s.rcvevent[pc.s := Wrap16(s.rcvevent[pc.s] + if pc.evt.RcvPlus? then 1 else -1)])
  }

  /** A connection just taken from the accept mailbox. */
  predicate Initial(s: State) {
    && s.socket == -1 && s.accept.Start? && |s.taken| == |s.rcvevent|
    && (forall t | 0 <= t < |s.threads| :: s.threads[t].Idle?)
    && s.plus == s.minus == s.lost == 0
  }

  ghost predicate Moves(s: State, s': State) { exists step :: Enabled(s, step) && s' == Next(s, step) }

  ghost predicate Run(r: seq<State>) {
    && |r| > 0 && Initial(r[0])
    && forall i: nat | i + 1 < |r| :: Moves(r[i], r[i + 1])
  }

  /** Events of a kind that are under way. */
  function UnderWay(threads: seq<Pc>, evt: Event): nat {
    if |threads| == 0 then 0
    else UnderWay(threads[..|threads| - 1], evt) +
         (if !threads[|threads| - 1].Idle? && threads[|threads| - 1].evt == evt then 1 else 0)
  }

  function One(pc: Pc, evt: Event): nat { if !pc.Idle? && pc.evt == evt then 1 else 0 }

  lemma {:induction false} UnderWayUpdate(threads: seq<Pc>, t: nat, pc: Pc, evt: Event)
    requires t < |threads|
    ensures UnderWay(threads[t := pc], evt) == UnderWay(threads, evt) - One(threads[t], evt) + One(pc, evt)
    decreases |threads|
  {
    var n := |threads| - 1;
    if t < n {
      UnderWayUpdate(threads[..n], t, pc, evt);
      assert threads[t := pc][..n] == threads[..n][t := pc];
    } else {
      assert threads[t := pc][..n] == threads[..n];
    }
  }

  lemma {:induction false} NoneUnderWay(threads: seq<Pc>, evt: Event)
    requires forall t | 0 <= t < |threads| :: threads[t].Idle?
    ensures UnderWay(threads, evt) == 0
  {
    if |threads| > 0 { NoneUnderWay(threads[..|threads| - 1], evt); }
  }

  // ---------------------------------------------------------------------------
  // The invariant

  /** Events of each kind that have had their effect. */
  function Done(s: State, evt: Event): int {
    (if evt.RcvPlus? then s.plus else s.minus) - UnderWay(s.threads, evt)
  }

  predicate PcOk(s: State, pc: Pc) {
    && (pc.Routed? ==> s.accept.Installed? && pc.s == s.accept.i)
    && (pc.Seen? && pc.s >= 0 ==> s.accept.Installed? && pc.s == s.accept.i)
  }

  ghost predicate Inv(s: State) {
    && |s.taken| == |s.rcvevent|
    && (forall t: nat | t < |s.threads| :: PcOk(s, s.threads[t]))
    && (s.accept.Claimed? || s.accept.Ready? || s.accept.Installed? ==> s.accept.i < |s.rcvevent|)
    && (s.accept.Ready? ==> s.rcvevent[s.accept.i] == 0)
    && (if s.accept.Installed? then
          && s.socket == s.accept.i
          && s.rcvevent[s.accept.i] == Wrap16(Done(s, RcvPlus) - (Done(s, RcvMinus) - s.lost))
        else
          && s.socket == -1 - Done(s, RcvPlus) && s.socket < 0
          && s.lost == Done(s, RcvMinus))
  }

  lemma InvInitial(s: State)
    requires Initial(s)
    ensures Inv(s)
  {
    NoneUnderWay(s.threads, RcvPlus);
    NoneUnderWay(s.threads, RcvMinus);
  }

  lemma UnderWayAt(s: State, t: nat, pc: Pc)
    requires t < |s.threads|
    ensures UnderWay(s.threads[t := pc], RcvPlus) ==
            UnderWay(s.threads, RcvPlus) - One(s.threads[t], RcvPlus) + One(pc, RcvPlus)
    ensures UnderWay(s.threads[t := pc], RcvMinus) ==
            UnderWay(s.threads, RcvMinus) - One(s.threads[t], RcvMinus) + One(pc, RcvMinus)
  {
    UnderWayUpdate(s.threads, t, pc, RcvPlus);
    UnderWayUpdate(s.threads, t, pc, RcvMinus);
  }

  lemma InvStep(s: State, step: Step)
    requires Inv(s) && Enabled(s, step)
    ensures Inv(Next(s, step))
  {
    var s' := Next(s, step);
    match step
    case Claim(_) =>
    case NoSlot =>
    case Prepare =>
    case Install =>
      WrapAdd(-1 - s.socket, 0);
    case Raise(t, evt) =>
      UnderWayAt(s, t, s'.threads[t]);
    case Check(t) => InvCheck(s, t);
    case Apply(t) => InvApply(s, t);
  }

  lemma InvCheck(s: State, t: nat)
    requires Inv(s) && Enabled(s, Check(t))
    ensures Inv(Next(s, Check(t)))
  {
    assert PcOk(s, s.threads[t]);
    UnderWayAt(s, t, Next(s, Check(t)).threads[t]);
  }

  lemma InvApply(s: State, t: nat)
    requires Inv(s) && Enabled(s, Apply(t))
    ensures Inv(Next(s, Apply(t)))
  {
    assert PcOk(s, s.threads[t]);
    UnderWayAt(s, t, Idle);
    WrapAdd(Done(s, RcvPlus) - (Done(s, RcvMinus) - s.lost), if s.threads[t].evt.RcvPlus? then 1 else -1);
  }

  lemma {:induction false} InvAlways(r: seq<State>, i: nat)
    requires Run(r) && i < |r|
    ensures Inv(r[i])
  {
    if i == 0 {
      InvInitial(r[0]);
    } else {
      InvAlways(r, i - 1);
      assert Moves(r[i - 1], r[i - 1 + 1]);
      var step :| Enabled(r[i - 1], step) && r[i] == Next(r[i - 1], step);
      InvStep(r[i - 1], step);
    }
  }

  // ---------------------------------------------------------------------------
  // What it comes to

  /** Once the socket is installed, its count is that of the RCVPLUS events that have had their
      effect less the RCVMINUS events that have, but for those that came too early. */
  lemma CountConserved(r: seq<State>, i: nat)
    requires Run(r) && i < |r| && r[i].accept.Installed?
    ensures r[i].accept.i < |r[i].rcvevent|
    ensures r[i].rcvevent[r[i].accept.i] == Wrap16(Done(r[i], RcvPlus) - (Done(r[i], RcvMinus) - r[i].lost))
  {
    InvAlways(r, i);
  }

  /** With no event under way and the count within s16_t, it is the difference of the events
      raised, exactly when no RCVMINUS came before the socket was installed. */
  lemma ExactIffNoneLost(r: seq<State>, i: nat)
    requires Run(r) && i < |r| && r[i].accept.Installed?
    requires forall t | 0 <= t < |r[i].threads| :: r[i].threads[t].Idle?
    requires -32768 <= r[i].plus - r[i].minus && r[i].plus - r[i].minus + r[i].lost < 32768
    ensures r[i].accept.i < |r[i].rcvevent|
    ensures r[i].rcvevent[r[i].accept.i] == r[i].plus - r[i].minus <==> r[i].lost == 0
  {
    InvAlways(r, i);
    NoneUnderWay(r[i].threads, RcvPlus);
    NoneUnderWay(r[i].threads, RcvMinus);
  }

  /** In this step a thread enters event_callback with such an event. */
  ghost predicate Enters(s: State, s': State, evt: Event) {
    exists t: nat :: t < |s.threads| && t < |s'.threads| && s.threads[t].Idle? &&
                     s'.threads[t].Seen? && s'.threads[t].evt == evt
  }

  /** In this step a RCVMINUS is dropped: its thread leaves without having found a socket. */
  ghost predicate Drops(s: State, s': State) {
    exists t: nat :: t < |s.threads| && t < |s'.threads| && s.threads[t].Seen? &&
                     s.threads[t].evt.RcvMinus? && s'.threads[t].Idle?
  }

  ghost function Entered(r: seq<State>, i: nat, evt: Event): nat
    requires i < |r|
  {
    if i == 0 then 0 else Entered(r, i - 1, evt) + (if Enters(r[i - 1], r[i], evt) then 1 else 0)
  }

  ghost function Dropped(r: seq<State>, i: nat): nat
    requires i < |r|
  {
    if i == 0 then 0 else Dropped(r, i - 1) + (if Drops(r[i - 1], r[i]) then 1 else 0)
  }

  lemma CountsStep(s: State, step: Step)
    requires Enabled(s, step)
    ensures var s' := Next(s, step);
      && s'.plus == s.plus + (if Enters(s, s', RcvPlus) then 1 else 0)
      && s'.minus == s.minus + (if Enters(s, s', RcvMinus) then 1 else 0)
      && s'.lost == s.lost + (if Drops(s, s') then 1 else 0)
  {
    var s' := Next(s, step);
    if step.Raise? { assert s'.threads[step.t].Seen? && s'.threads[step.t].evt == step.evt; }
    if step.Check? { assert s.threads[step.t].Seen?; }
  }

  /** The counters are the numbers of such steps. */
  lemma {:induction false} CountsAre(r: seq<State>, i: nat)
    requires Run(r) && i < |r|
    ensures r[i].plus == Entered(r, i, RcvPlus) && r[i].minus == Entered(r, i, RcvMinus) && r[i].lost == Dropped(r, i)
  {
    if i > 0 {
      CountsAre(r, i - 1);
      assert Moves(r[i - 1], r[i - 1 + 1]);
      var step :| Enabled(r[i - 1], step) && r[i] == Next(r[i - 1], step);
      CountsStep(r[i - 1], step);
    }
  }

  /** So in every run: with all callbacks back and the count within s16_t, the installed socket has
      seen as many RCVPLUS less RCVMINUS as there were, exactly when none was dropped. */
  lemma EventsCounted(r: seq<State>, i: nat)
    requires Run(r) && i < |r| && r[i].accept.Installed?
    requires forall t | 0 <= t < |r[i].threads| :: r[i].threads[t].Idle?
    requires var d := Entered(r, i, RcvPlus) - Entered(r, i, RcvMinus); -32768 <= d && d + Dropped(r, i) < 32768
    ensures r[i].accept.i < |r[i].rcvevent|
    ensures r[i].rcvevent[r[i].accept.i] == Entered(r, i, RcvPlus) - Entered(r, i, RcvMinus) <==> Dropped(r, i) == 0
  {
    CountsAre(r, i);
    ExactIffNoneLost(r, i);
  }

  /** Every event is routed to the socket that was installed. */
  lemma RoutedToInstalled(r: seq<State>, i: nat, t: nat)
    requires Run(r) && i < |r| && t < |r[i].threads| && r[i].threads[t].Routed?
    ensures r[i].accept.Installed? && r[i].accept.i == r[i].threads[t].s
  {
    InvAlways(r, i);
    assert PcOk(r[i], r[i].threads[t]);
  }

  /** An early RCVMINUS does get lost: it comes before the installation, and the count is then one
      above the difference of the events. */
  lemma EarlyMinusIsLost() returns (r: seq<State>)
    ensures Run(r) && var s := r[|r| - 1];
      && s.accept == Installed(0) && |s.rcvevent| == 1 && s.threads == [Idle] && s.lost == 1
      && s.rcvevent[0] == s.plus - s.minus + 1
  {
    var s0 := State(-1, [false], [0], Start, [Idle], 0, 0, 0);
    var s1 := s0.(threads := [Seen(RcvMinus, -1)], minus := 1);
    assert Next(s0, Raise(0, RcvMinus)) == s1;
    r := Longer([s0], Raise(0, RcvMinus), s1);
    var s2 := s1.(threads := [Idle], lost := 1);
    assert Next(s1, Check(0)) == s2;
    r := Longer(r, Check(0), s2);
    r := AcceptQuietly(r, s2);
  }

  /** The only socket is free and lwip_accept runs without interruption. */
  lemma AcceptQuietly(r: seq<State>, s: State) returns (r': seq<State>)
    requires Run(r) && r[|r| - 1] == s && s.accept.Start? && s.taken == [false] && s.rcvevent == [0] && s.socket == -1
    ensures Run(r') && r'[|r'| - 1] == s.(taken := [true], socket := 0, accept := Installed(0))
  {
    var s1 := s.(taken := [true], accept := Claimed(0));
    assert Next(s, Claim(0)) == s1;
    r' := Longer(r, Claim(0), s1);
    var s2 := s1.(accept := Ready(0));
    assert Next(s1, Prepare) == s2;
    r' := Longer(r', Prepare, s2);
    var s3 := s2.(socket := 0, accept := Installed(0));
    assert Next(s2, Install) == s3;
    r' := Longer(r', Install, s3);
  }

  lemma Longer(r: seq<State>, step: Step, s: State) returns (r': seq<State>)
    requires Run(r) && Enabled(r[|r| - 1], step) && s == Next(r[|r| - 1], step)
    ensures Run(r') && r'[|r'| - 1] == s
  {
    r' := r + [s];
    forall i: nat | i + 1 < |r'| ensures Moves(r'[i], r'[i + 1]) {
      if i + 1 < |r| { assert Moves(r[i], r[i + 1]); }
    }
  }
}
