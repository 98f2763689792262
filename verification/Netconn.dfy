/** The request state machine of a TCP netconn (lwip/src/api/api_msg.c), in the build
    with core locking and without send timeouts: write, connect, close, delete and the
    TCP callbacks share `state`, `current_msg`, `write_offset` and a completion
    semaphore.

    The functions on `Conn` say what each call or callback does to these fields; the
    class at the end is the code, proved against them. */
module Netconn {
  import opened Basics

  datatype Mode = Idle | Writing | Listening | Connecting | Closing

  /** struct api_msg_msg, as far as it is read again later. */
  datatype Msg = WriteMsg(data: string, dontblock: bool) | CloseMsg(rx: bool, tx: bool) | ConnectMsg

  datatype Pcb = NoPcb | Pcb(listen: bool)

  datatype Err = Ok | Mem | Hard

  /** The application thread: outside any blocking call, or waiting for op_completed, in a
      write or in another call. */
  datatype Caller = Free | Waiting(inWrite: bool)

  /** What a write call reports: the error (WouldBlock included in Failed) and how many
      bytes were sent. */
  datatype Result = Written(n: nat) | Failed

  datatype Conn = Conn(mode: Mode, msg: Option<Msg>, offset: nat, pcb: Pcb,
                       nonblocking: bool, inNbConnect: bool, delayed: bool, fatal: bool,
                       sem: nat, signals: nat,      // op_completed, and how often it was signalled
                       caller: Caller, deleting: bool,
                       accepted: string,            // what tcp_write has taken, ever
                       results: seq<Result>)        // what finished writes reported
  {
    function Signal(): Conn { this.(sem := 1, signals := signals + 1) }
  }

  function Min(a: nat, b: nat): nat { if a < b then a else b }

  // ---------------------------------------------------------------------------
  // lwip_netconn_do_writemore

  /** Its assertions on entry. */
  predicate WriteReady(c: Conn) {
    c.mode.Writing? && c.msg.Some? && c.msg.value.WriteMsg? && c.pcb.Pcb? && c.offset < |c.msg.value.data|
  }

  /** The write is over: report, drop the message, and wake the caller if it waits. */
  function WriteOver(c: Conn, res: Result): Conn {
    var c1 := c.(msg := None, mode := Idle, results := c.results + [res]);
    if c.delayed then c1.Signal() else c1
  }

  /** What one round does: how many bytes tcp_write accepts, whether the round raises
      the "delayed" flag, and the report if it ends the write. */
  datatype Round = Round(n: nat, late: bool, over: Option<Result>)

  /** `avail` is the send-buffer space and `werr` the answer of tcp_write. */
  function TryWrite(m: Msg, offset: nat, avail: nat, werr: Err): Round
    requires m.WriteMsg? && offset < |m.data|
  {
    var diff := |m.data| - offset;
    var want := Min(diff, U16_MAX);
    var len := Min(want, avail);
    var late := diff > U16_MAX || (avail < want && !m.dontblock);
    if avail < want && m.dontblock && len == 0 then Round(0, late, Some(Failed))
    else if werr.Ok? then
      Round(len, late, if offset + len == |m.data| || m.dontblock then Some(Written(offset + len)) else None)
    else if werr.Mem? && !m.dontblock then Round(0, true, None)
    else Round(0, late, Some(Failed))
  }

  function ApplyRound(c: Conn, m: Msg, o: Round): Conn
    requires m.WriteMsg? && c.offset + o.n <= |m.data|
  {
    var c1 := c.(accepted := c.accepted + m.data[c.offset..c.offset + o.n], delayed := c.delayed || o.late);
    if o.over.None? then c1.(offset := c.offset + o.n)
    else WriteOver(c1.(offset := if o.over.value.Written? then 0 else c.offset), o.over.value)
  }

  function WriteMore(c: Conn, avail: nat, werr: Err): Conn
    requires WriteReady(c)
  {
    ApplyRound(c, c.msg.value, TryWrite(c.msg.value, c.offset, avail, werr))
  }

  /** A round that does not end the write is one of a blocking write with more to come. */
  lemma RoundFacts(m: Msg, offset: nat, avail: nat, werr: Err)
    requires m.WriteMsg? && offset < |m.data|
    ensures var o := TryWrite(m, offset, avail, werr);
      && offset + o.n <= |m.data|
      && (o.over.None? ==> offset + o.n < |m.data| && !m.dontblock && o.late && !werr.Hard?)
      && (o.over.Some? && o.over.value.Written? ==> o.over.value.n == offset + o.n)
      && (o.over == Some(Failed) ==> o.n == 0 && (m.dontblock || werr.Hard?))
      && (werr.Hard? ==> o.over == Some(Failed))
      && (!m.dontblock && o.over.Some? && o.over.value.Written? ==> offset + o.n == |m.data| && !o.late)
  {
  }

  /** What one round takes: of the bytes not yet written as many as fit into 16 bits and into the
      send buffer, and nothing if tcp_write refuses. It ends the write with the last byte, or when
      the caller does not want to wait; short memory only makes a blocking write wait. */
  lemma RoundTakes(c: Conn, m: Msg, avail: nat, werr: Err, left: nat, n: nat)
    requires WriteReady(c) && c.msg == Some(m) && left == |m.data| - c.offset
    requires n == if left <= avail && left <= 0xffff then left else if avail <= 0xffff then avail else 0xffff
    ensures var c' := WriteMore(c, avail, werr);
      if werr.Ok? && !(m.dontblock && avail == 0) then
        && c'.accepted == c.accepted + m.data[c.offset..c.offset + n]
        && (if n == left || m.dontblock then
              c'.mode.Idle? && c'.msg.None? && c'.results == c.results + [Written(c.offset + n)]
            else c'.mode.Writing? && c'.msg == c.msg && c'.offset == c.offset + n && c'.results == c.results)
      else
        && c'.accepted == c.accepted
        && (if werr.Mem? && !m.dontblock then c'.mode.Writing? && c'.offset == c.offset && c'.results == c.results
            else c'.mode.Idle? && c'.msg.None? && c'.results == c.results + [Failed])
  {
    RoundIs(m, c.offset, avail, werr, left, n);
    RoundBooked(c, m, TryWrite(m, c.offset, avail, werr));
  }

  lemma RoundIs(m: Msg, off: nat, avail: nat, werr: Err, left: nat, n: nat)
    requires m.WriteMsg? && off < |m.data| && left == |m.data| - off
    requires n == if left <= avail && left <= 0xffff then left else if avail <= 0xffff then avail else 0xffff
    ensures var o := TryWrite(m, off, avail, werr);
      if werr.Ok? && !(m.dontblock && avail == 0) then
        o.n == n && o.over == if n == left || m.dontblock then Some(Written(off + n)) else None
      else o.n == 0 && o.over == if werr.Mem? && !m.dontblock then None else Some(Failed)
  {
  }

  lemma RoundBooked(c: Conn, m: Msg, o: Round)
    requires WriteReady(c) && c.msg == Some(m) && c.offset + o.n <= |m.data|
    ensures var c' := ApplyRound(c, m, o);
      && c'.accepted == c.accepted + m.data[c.offset..c.offset + o.n]
      && (o.n == 0 ==> c'.accepted == c.accepted)
      && (if o.over.None? then
            c'.mode.Writing? && c'.msg == c.msg && c'.offset == c.offset + o.n && c'.results == c.results
          else c'.mode.Idle? && c'.msg.None? && c'.results == c.results + [o.over.value])
  {
    assert c.accepted + [] == c.accepted;
  }

  // ---------------------------------------------------------------------------
  // lwip_netconn_do_close_internal

  predicate CloseReady(c: Conn) { c.mode.Closing? && c.pcb.Pcb? && c.msg.Some? && c.msg.value.CloseMsg? }

  function CloseMore(c: Conn, ok: bool): Conn
    requires CloseReady(c)
  {
    if ok then
      var full := c.msg.value.rx && c.msg.value.tx;
      c.(msg := None, mode := Idle, pcb := if full then NoPcb else c.pcb).Signal()
    else c
  }

  // ---------------------------------------------------------------------------
  // Calls, callbacks, and the caller's wake-up

  datatype Event =
    | Write(data: string, dontblock: bool, avail: nat, werr: Err)
    | Close(rx: bool, tx: bool, closed: bool)
    | Delete(closed: bool)
    | Connect(started: bool)
    | Listen(gotPcb: bool, gotMbox: bool)
    | SetNonblocking(on: bool)
    | Tick(avail: nat, werr: Err, closed: bool)     // sent_tcp or poll_tcp
    | Broken(fatal: bool)                           // err_tcp
    | Connected                                     // lwip_netconn_do_connected
    | Wake                                          // sys_arch_sem_wait(op_completed) returns

  predicate IsCall(ev: Event) {
    ev.Write? || ev.Close? || ev.Delete? || ev.Connect? || ev.Listen? || ev.SetNonblocking?
  }

  /** What the surroundings guarantee: one API call at a time and none on a deleted
      netconn, no empty write, callbacks only from an existing pcb, the connected
      callback only for a connection being set up.  Closing a listening pcb, or one
      whose connection is still being set up, does not fail. */
  predicate Enabled(c: Conn, ev: Event) {
    && (IsCall(ev) ==> c.caller.Free? && !c.deleting)
    && (ev.Write? ==> ev.data != "")
    && ((ev.Tick? || ev.Broken? || ev.Connected?) ==> c.pcb.Pcb?)
    && (ev.Connected? ==> c.mode.Connecting?)
    && (ev.Close? && c.pcb == Pcb(true) ==> ev.closed)
    && (ev.Delete? && (c.pcb == Pcb(true) || c.mode.Connecting?) ==> ev.closed)
    && (ev.Tick? && c.pcb == Pcb(true) ==> ev.closed)
    && (ev.Wake? ==> c.caller.Waiting? && c.sem > 0)
  }

  /** The state in which a write call enters the loop. */
  function WriteStart(c: Conn, data: string, dontblock: bool): Conn {
    c.(mode := Writing, msg := Some(WriteMsg(data, dontblock || c.nonblocking)), offset := 0, delayed := false)
  }

  /** The first round of a write, and whether its caller has to wait for more. */
  function FirstCall(c: Conn, ev: Event): Conn
    requires ev.Write? && ev.data != "" && c.pcb.Pcb?
  {
    WriteMore(WriteStart(c, ev.data, ev.dontblock), ev.avail, ev.werr)
  }

  predicate GoesOn(c: Conn, ev: Event)
    requires ev.Write? && ev.data != ""
  {
    TryWrite(WriteMsg(ev.data, ev.dontblock || c.nonblocking), 0, ev.avail, ev.werr).over.None?
  }

  /** The assertions on state, current_msg, write_offset and pcb met on the way. */
  predicate Asserts(c: Conn, ev: Event)
    requires Enabled(c, ev)
  {
    match ev
    case Write(_, _, _, _) =>
      !c.fatal && c.mode.Idle? && c.pcb.Pcb? ==>
        c.msg.None? && c.offset == 0 && (GoesOn(c, ev) ==> FirstCall(c, ev).mode.Writing?)
    case Close(_, _, _) => (c.mode.Idle? || c.mode.Listening?) && c.pcb.Pcb? ==> c.msg.None? && c.offset == 0
    case Delete(_) =>
      !c.mode.Writing? && !c.mode.Closing? ==>
        (c.mode.Connecting? ==> c.inNbConnect) && (c.pcb.Pcb? ==> c.msg.None? && c.offset == 0)
    case Tick(_, _, _) => (c.mode.Writing? ==> WriteReady(c)) && (c.mode.Closing? ==> CloseReady(c))
    case Broken(_) =>
      if c.mode.Writing? || c.mode.Closing? || c.mode.Connecting? then c.inNbConnect || c.msg.Some? else c.msg.None?
    case Connected => c.mode.Connecting? && (c.msg.Some? || c.inNbConnect)
    case Wake =>
      && (c.deleting ==> c.pcb.NoPcb?)                          // netconn_free
      && (c.caller == Waiting(true) ==> c.mode.Idle?)           // lwip_netconn_do_write
    case _ => true
  }

  /** The pcb is gone: a pending request fails, and its caller is woken. */
  function AfterBreak(c: Conn, fatal: bool): Conn {
    var c1 := c.(pcb := NoPcb, fatal := fatal, mode := Idle);
    if c.mode.Writing? || c.mode.Closing? || c.mode.Connecting? then
      if c.inNbConnect then c1.(inNbConnect := false)
      else c1.(msg := None, results := if c.mode.Writing? then c.results + [Failed] else c.results).Signal()
    else c1
  }

  function Step(c: Conn, ev: Event): Conn
    requires Enabled(c, ev) && Asserts(c, ev)
  {
    match ev
    case Write(data, dontblock, avail, werr) =>
      if c.fatal || !c.mode.Idle? || c.pcb.NoPcb? then c.(results := c.results + [Failed])
      else if GoesOn(c, ev) then FirstCall(c, ev).(caller := Waiting(true))
      else FirstCall(c, ev)
    case Close(rx, tx, closed) =>
      var c1 := c.(caller := Waiting(false));
      if !c.mode.Idle? && !c.mode.Listening? then c1.Signal()
      else if c.pcb.NoPcb? || (!(rx && tx) && c.mode.Listening?) then c1.Signal()
      else CloseMore(c1.(mode := Closing, msg := Some(CloseMsg(rx, tx))), closed)
    case Delete(closed) =>
      var c1 := c.(caller := Waiting(false), deleting := true);
      if c.mode.Writing? || c.mode.Closing? || c.pcb.NoPcb? then c1.Signal()
      else CloseMore(c1.(mode := Closing, msg := Some(CloseMsg(true, true))), closed)
    case Connect(started) =>
      var c1 := c.(caller := Waiting(false));
      if c.pcb.NoPcb? || !c.mode.Idle? || !started then c1.Signal()
      else if c.nonblocking then c1.(mode := Connecting, inNbConnect := true).Signal()
      else c1.(mode := Connecting, inNbConnect := false, msg := Some(ConnectMsg))
    case Listen(gotPcb, gotMbox) =>
      if c.fatal || c.pcb.NoPcb? || !c.mode.Idle? || !gotPcb then c
      else if gotMbox then c.(mode := Listening, pcb := Pcb(true))
      else c.(pcb := NoPcb)
    case SetNonblocking(on) => c.(nonblocking := on)
    case Tick(avail, werr, closed) =>
      if c.mode.Writing? then WriteMore(c, avail, werr)
      else if c.mode.Closing? then CloseMore(c, closed)
      else c
    case Broken(fatal) => AfterBreak(c, fatal)
    case Connected =>
      var c1 := c.(msg := None, mode := Idle, inNbConnect := false);
      if c.inNbConnect then c1 else c1.Signal()
    case Wake => c.(sem := c.sem - 1, caller := Free)
  }

  // ---------------------------------------------------------------------------
  // The premises on tcp_write

  /** tcp_write gives no hard error for a blocking write of which it has already
      accepted a part. */
  predicate NoLateError(c: Conn, ev: Event) {
    !(ev.Tick? && c.mode.Writing? && c.offset > 0 && ev.werr.Hard?)
  }

  /** The writes that end in their first call although that call has raised the
      "delayed" flag. */
  predicate Stray(c: Conn, ev: Event) {
    && ev.Write? && !c.fatal && c.mode.Idle? && c.pcb.Pcb?
    && var dontblock := ev.dontblock || c.nonblocking;
       || (|ev.data| > U16_MAX && (dontblock || ev.werr.Hard?))
       || (!dontblock && ev.avail < |ev.data| && ev.werr.Hard?)
  }

  predicate Premises(c: Conn, ev: Event) { NoLateError(c, ev) && !Stray(c, ev) }

  // ---------------------------------------------------------------------------
  // The invariant

  /** state, current_msg, write_offset and pcb agree. */
  predicate Consistent(c: Conn) {
    match c.mode
    case Idle => c.msg.None? && (c.pcb.Pcb? ==> !c.pcb.listen && c.offset == 0)
    case Writing => WriteReady(c) && !c.pcb.listen && !c.msg.value.dontblock && c.delayed
    case Listening => c.msg.None? && c.pcb == Pcb(true) && c.offset == 0
    case Connecting =>
      c.pcb == Pcb(false) && c.offset == 0 && (if c.inNbConnect then c.msg.None? else c.msg == Some(ConnectMsg))
    case Closing => CloseReady(c) && c.pcb == Pcb(false) && c.offset == 0
  }

  /** A request in progress has a waiting caller and no token; a caller waits either for
      its request or for a token that is there; nobody else's token ever lies about. */
  predicate Tokens(c: Conn) {
    && c.sem <= 1
    && (c.msg.Some? ==> c.caller.Waiting? && c.sem == 0)
    && (c.caller.Waiting? ==> c.msg.Some? || c.sem == 1)
    && (c.sem == 1 ==> c.caller.Waiting?)
  }

  predicate Inv(c: Conn) {
    && Consistent(c) && Tokens(c)
    && (c.inNbConnect ==> c.mode.Connecting? || c.deleting)
    && (c.deleting ==> c.pcb.NoPcb? || (c.mode.Closing? && c.msg == Some(CloseMsg(true, true)) && !c.inNbConnect))
    && (c.caller == Waiting(true) ==> c.mode.Writing? || c.mode.Idle?)
  }

  ghost predicate Init(c: Conn) {
    c.mode.Idle? && c.msg.None? && c.offset == 0 && !c.inNbConnect && c.sem == 0 && c.caller.Free? && !c.deleting &&
    (c.pcb.Pcb? ==> !c.pcb.listen)
  }

  lemma WriteMoreInv(c: Conn, avail: nat, werr: Err)
    requires WriteReady(c) && c.sem == 0
    ensures var c' := WriteMore(c, avail, werr);
      && c'.pcb == c.pcb && c'.caller == c.caller && c'.deleting == c.deleting && c'.inNbConnect == c.inNbConnect
      && (c'.mode.Writing? ==>
            WriteReady(c') && c'.msg == c.msg && !c.msg.value.dontblock && c'.delayed && c'.sem == 0)
      && (!c'.mode.Writing? ==>
            c'.mode.Idle? && c'.msg.None? && c'.sem == (if c'.delayed then 1 else 0))
      && (c.delayed ==> c'.delayed)
  {
    RoundFacts(c.msg.value, c.offset, avail, werr);
  }

  /** The offset is back at zero when a write ends, unless a hard error ends it after
      a part was accepted. */
  lemma WriteMoreOffset(c: Conn, avail: nat, werr: Err)
    requires WriteReady(c) && (c.msg.value.dontblock ==> c.offset == 0)
    ensures var c' := WriteMore(c, avail, werr);
      !c'.mode.Writing? ==> (c'.offset == 0 <==> !(werr.Hard? && c.offset > 0))
  {
    RoundFacts(c.msg.value, c.offset, avail, werr);
  }

  lemma AssertsHold(c: Conn, ev: Event)
    requires Inv(c) && Enabled(c, ev)
    ensures Asserts(c, ev)
  {
  }

  predicate Starts(c: Conn, ev: Event) { ev.Write? && !c.fatal && c.mode.Idle? && c.pcb.Pcb? }

  lemma InvWrite(c: Conn, ev: Event)
    requires Inv(c) && Enabled(c, ev) && Asserts(c, ev) && Premises(c, ev) && Starts(c, ev)
    ensures Inv(Step(c, ev))
  {
    WriteMoreInv(WriteStart(c, ev.data, ev.dontblock), ev.avail, ev.werr);
    WriteMoreOffset(WriteStart(c, ev.data, ev.dontblock), ev.avail, ev.werr);
  }

  lemma InvTick(c: Conn, ev: Event)
    requires Inv(c) && Enabled(c, ev) && Asserts(c, ev) && Premises(c, ev) && ev.Tick? && c.mode.Writing?
    ensures Inv(Step(c, ev))
  {
    WriteMoreInv(c, ev.avail, ev.werr);
    WriteMoreOffset(c, ev.avail, ev.werr);
  }

  lemma InvStep(c: Conn, ev: Event)
    requires Inv(c) && Enabled(c, ev) && Asserts(c, ev) && Premises(c, ev)
    ensures Inv(Step(c, ev))
  {
    if Starts(c, ev) {
      InvWrite(c, ev);
    } else if ev.Tick? && c.mode.Writing? {
      InvTick(c, ev);
    } else if ev.Close? || ev.Delete? {
      InvClose(c, ev);
    }
  }

  lemma InvClose(c: Conn, ev: Event)
    requires Inv(c) && Enabled(c, ev) && Asserts(c, ev) && (ev.Close? || ev.Delete?)
    ensures Inv(Step(c, ev))
  {
  }

  // ---------------------------------------------------------------------------
  // Whole runs

  /** Step i of a run; after a failed assertion anything may follow. */
  ghost predicate Goes(r: seq<Conn>, evs: seq<Event>, i: nat) {
    i < |evs| && i + 1 < |r| && Enabled(r[i], evs[i]) && (Asserts(r[i], evs[i]) ==> r[i + 1] == Step(r[i], evs[i]))
  }

  ghost predicate Run(r: seq<Conn>, evs: seq<Event>) {
    |r| == |evs| + 1 && Init(r[0]) && forall i | 0 <= i < |evs| :: Goes(r, evs, i)
  }

  ghost predicate Sane(r: seq<Conn>, evs: seq<Event>, i: nat) { i < |evs| && i < |r| && Premises(r[i], evs[i]) }

  ghost predicate PremisesHold(r: seq<Conn>, evs: seq<Event>) { forall i | 0 <= i < |evs| :: Sane(r, evs, i) }

  lemma {:induction false} InvAlways(r: seq<Conn>, evs: seq<Event>, i: nat)
    requires Run(r, evs) && PremisesHold(r, evs) && i < |r|
    ensures Inv(r[i])
  {
    if i > 0 {
      InvAlways(r, evs, i - 1);
      assert Goes(r, evs, i - 1) && Sane(r, evs, i - 1);
      AssertsHold(r[i - 1], evs[i - 1]);
      InvStep(r[i - 1], evs[i - 1]);
    }
  }

  /** In every run no assertion fails, and an idle netconn with a pcb has neither a
      message nor a write offset. */
  lemma NoAssertionFails(r: seq<Conn>, evs: seq<Event>, i: nat)
    requires Run(r, evs) && PremisesHold(r, evs) && i < |r|
    ensures i < |evs| ==> Enabled(r[i], evs[i]) && Asserts(r[i], evs[i])
    ensures r[i].mode.Idle? && r[i].pcb.Pcb? ==> r[i].msg.None? && r[i].offset == 0
  {
    InvAlways(r, evs, i);
    if i < |evs| {
      assert Goes(r, evs, i);
      AssertsHold(r[i], evs[i]);
    }
  }

  // ---------------------------------------------------------------------------
  // Exactly when the premises are needed

  /** From a consistent state, a step leaves an idle netconn with a stale write offset
      if and only if tcp_write fails hard after accepting a part. */
  lemma StaleOffsetIffLateError(c: Conn, ev: Event)
    requires Inv(c) && Enabled(c, ev) && Asserts(c, ev)
    ensures var c' := Step(c, ev);
      (c'.mode.Idle? && c'.pcb.Pcb? && c'.offset > 0) <==> !NoLateError(c, ev)
  {
    if Starts(c, ev) {
      WriteMoreOffset(WriteStart(c, ev.data, ev.dontblock), ev.avail, ev.werr);
    } else if ev.Tick? && c.mode.Writing? {
      WriteMoreInv(c, ev.avail, ev.werr);
      WriteMoreOffset(c, ev.avail, ev.werr);
    }
  }

  /** From a consistent state, a step leaves a token that nobody waits for if and only
      if it is one of the stray writes. */
  lemma StrayTokenIffStrayWrite(c: Conn, ev: Event)
    requires Inv(c) && Enabled(c, ev) && Asserts(c, ev)
    ensures var c' := Step(c, ev);
      (c'.sem > 0 && c'.caller.Free?) <==> Stray(c, ev)
  {
    if Starts(c, ev) {
      WriteMoreInv(WriteStart(c, ev.data, ev.dontblock), ev.avail, ev.werr);
      FirstCallDelays(WriteStart(c, ev.data, ev.dontblock), ev.avail, ev.werr);
    } else if ev.Tick? && c.mode.Writing? {
      WriteMoreInv(c, ev.avail, ev.werr);
    }
  }

  lemma FirstCallDelays(c: Conn, avail: nat, werr: Err)
    requires WriteReady(c) && c.offset == 0 && !c.delayed
    ensures var (c', m) := (WriteMore(c, avail, werr), c.msg.value);
      !c'.mode.Writing? ==>
        (c'.delayed <==> || (|m.data| > U16_MAX && (m.dontblock || werr.Hard?))
                         || (!m.dontblock && avail < |m.data| && werr.Hard?))
  {
  }

  /** Both do happen, and both make an assertion of a later call fail.  A hard error after one
      byte of a write: the next write finds the stale offset. */
  lemma LateErrorBreaks(c: Conn) returns (r: seq<Conn>, evs: seq<Event>)
    requires Init(c) && c.pcb.Pcb? && !c.fatal && !c.nonblocking
    ensures Run(r, evs) && r[0] == c && |evs| == 4
    ensures forall i: nat | i < |evs| :: !Stray(r[i], evs[i])
    ensures Enabled(r[3], evs[3]) && evs[3].Write? && !Asserts(r[3], evs[3])
  {
    evs := [Write("ab", false, 1, Ok), Tick(1, Hard, false), Wake, Write("cd", false, 2, Ok)];
    var c1 := Step(c, evs[0]);
    assert c1.mode.Writing? && c1.offset == 1 && WriteReady(c1) && c1.caller == Waiting(true) && c1.delayed;
    var c2 := Step(c1, evs[1]);
    assert c2.mode.Idle? && c2.offset == 1 && c2.sem == 1 && c2.pcb == c.pcb;
    var c3 := Step(c2, evs[2]);
    r := [c, c1, c2, c3, c3];
    assert Goes(r, evs, 0) && Goes(r, evs, 1) && Goes(r, evs, 2) && Goes(r, evs, 3);
  }

  /** A large write without blocking leaves a token behind: the next blocking write is woken by it
      while it is still in progress. */
  lemma StrayWriteBreaks(c: Conn) returns (r: seq<Conn>, evs: seq<Event>)
    requires Init(c) && c.pcb.Pcb? && !c.fatal && !c.nonblocking
    ensures Run(r, evs) && r[0] == c && |evs| == 3
    ensures forall i: nat | i < |evs| :: NoLateError(r[i], evs[i])
    ensures Enabled(r[2], evs[2]) && evs[2].Wake? && !Asserts(r[2], evs[2])
  {
    var big := seq(U16_MAX + 1, _ => 'x');
    evs := [Write(big, true, U16_MAX, Ok), Write("ab", false, 1, Ok), Wake];
    var c1 := Step(c, evs[0]);
    assert c1.mode.Idle? && c1.sem == 1 && c1.caller.Free? && c1.offset == 0 && c1.msg.None? && c1.pcb == c.pcb;
    var c2 := Step(c1, evs[1]);
    assert c2.mode.Writing? && c2.sem == 1 && c2.caller == Waiting(true);
    r := [c, c1, c2, c2];
    assert Goes(r, evs, 0) && Goes(r, evs, 1) && Goes(r, evs, 2);
  }

  // ---------------------------------------------------------------------------
  // Blocking writes are exact

  /** One round of a blocking write: the accepted bytes are the caller's data, in order
      and each once; it ends when all are accepted, and reports them all. */
  lemma WriteRoundExact(c: Conn, avail: nat, werr: Err, base: string)
    requires WriteReady(c) && !c.msg.value.dontblock && !werr.Hard?
    requires c.accepted == base + c.msg.value.data[..c.offset]
    ensures var (c', d) := (WriteMore(c, avail, werr), c.msg.value.data);
      && (c'.mode.Writing? ==>
            c'.msg == c.msg && c'.accepted == base + d[..c'.offset] && c'.offset >= c.offset && c'.delayed &&
            c'.signals == c.signals && c'.results == c.results)
      && (!c'.mode.Writing? ==>
            c'.accepted == base + d && c'.results == c.results + [Written(|d|)] && c'.offset == 0 &&
            c'.signals == c.signals + (if c.delayed then 1 else 0))
  {
    var d := c.msg.value.data;
    RoundFacts(c.msg.value, c.offset, avail, werr);
    var n := TryWrite(c.msg.value, c.offset, avail, werr).n;
    assert base + d[..c.offset] + d[c.offset..c.offset + n] == base + d[..c.offset + n];
    assert d[..|d|] == d;
  }

  predicate BlockingWrite(c: Conn, ev: Event) { Starts(c, ev) && !ev.dontblock && !c.nonblocking }

  /** A write that started at step i is still in progress in state j. */
  ghost predicate InProgress(r: seq<Conn>, i: nat, j: nat) {
    i < j < |r| && forall k | i < k <= j :: r[k].mode.Writing?
  }

  /** While a blocking write lasts, what TCP has accepted since it began is a prefix of
      the caller's data, and its caller waits unsignalled. */
  lemma {:induction false} BlockingWriteSoFar(r: seq<Conn>, evs: seq<Event>, i: nat, j: nat)
    requires Run(r, evs) && PremisesHold(r, evs) && i < |evs| && BlockingWrite(r[i], evs[i]) && !evs[i].werr.Hard?
    requires InProgress(r, i, j)
    requires forall k | i < k < j :: !(evs[k].Tick? && evs[k].werr.Hard?)
    ensures r[j].msg == Some(WriteMsg(evs[i].data, false)) && r[j].offset <= |evs[i].data|
    ensures r[j].accepted == r[i].accepted + evs[i].data[..r[j].offset]
    ensures r[j].signals == r[i].signals && r[j].results == r[i].results && r[j].caller.Waiting? && r[j].delayed
    decreases j
  {
    NoAssertionFails(r, evs, i);
    assert Goes(r, evs, i) && r[j].mode.Writing?;
    if j == i + 1 {
      FirstRound(r[i], evs[i]);
    } else {
      BlockingWriteSoFar(r, evs, i, j - 1);
      WritingGoesOn(r, evs, j, r[i].accepted);
    }
  }

  /** Step j - 1 of a run, with a write in progress before and after it. */
  lemma WritingGoesOn(r: seq<Conn>, evs: seq<Event>, j: nat, base: string)
    requires Run(r, evs) && PremisesHold(r, evs) && 0 < j <= |evs|
    requires r[j - 1].mode.Writing? && r[j].mode.Writing? && !(evs[j - 1].Tick? && evs[j - 1].werr.Hard?)
    requires r[j - 1].msg.Some? && r[j - 1].msg.value.WriteMsg? && r[j - 1].offset <= |r[j - 1].msg.value.data|
    requires r[j - 1].accepted == base + r[j - 1].msg.value.data[..r[j - 1].offset]
    ensures r[j].msg == r[j - 1].msg && r[j].offset <= |r[j].msg.value.data|
    ensures r[j].accepted == base + r[j].msg.value.data[..r[j].offset]
    ensures r[j].signals == r[j - 1].signals && r[j].results == r[j - 1].results
    ensures r[j].caller == r[j - 1].caller && r[j].delayed
  {
    NoAssertionFails(r, evs, j - 1);
    InvAlways(r, evs, j - 1);
    assert Goes(r, evs, j - 1);
    WritingStep(r[j - 1], evs[j - 1], base);
  }

  lemma FirstRound(c: Conn, ev: Event)
    requires Enabled(c, ev) && Asserts(c, ev) && BlockingWrite(c, ev) && !ev.werr.Hard?
    ensures var c' := Step(c, ev);
      && (c'.mode.Writing? ==>
            && c'.msg == Some(WriteMsg(ev.data, false)) && c'.offset <= |ev.data|
            && c'.accepted == c.accepted + ev.data[..c'.offset]
            && c'.signals == c.signals && c'.results == c.results && c'.caller.Waiting? && c'.delayed)
      && (!c'.mode.Writing? ==>
            && c'.accepted == c.accepted + ev.data
            && c'.results == c.results + [Written(|ev.data|)] && c'.signals == c.signals)
  {
    var c1 := WriteStart(c, ev.data, ev.dontblock);
    assert c.accepted == c.accepted + ev.data[..0];
    RoundFacts(c1.msg.value, 0, ev.avail, ev.werr);
    WriteRoundExact(c1, ev.avail, ev.werr, c.accepted);
  }

  /** The only step that changes a write in progress and lets it go on is a round. */
  lemma WritingStep(c: Conn, ev: Event, base: string)
    requires Inv(c) && Enabled(c, ev) && Asserts(c, ev) && c.mode.Writing? && Step(c, ev).mode.Writing?
    requires c.accepted == base + c.msg.value.data[..c.offset] && !(ev.Tick? && ev.werr.Hard?)
    ensures var c' := Step(c, ev);
      && c'.msg == c.msg && c'.offset <= |c.msg.value.data| && c'.accepted == base + c.msg.value.data[..c'.offset]
      && c'.signals == c.signals && c'.results == c.results && c'.caller == c.caller && c'.delayed
  {
    if ev.Tick? {
      WriteMoreInv(c, ev.avail, ev.werr);
      WriteRoundExact(c, ev.avail, ev.werr, base);
    }
  }

  /** A blocking write that TCP ends, however many rounds it took and however often
      memory was short: every byte was accepted exactly once and in order, all are
      reported, and the caller is signalled exactly once if it had to wait (j > i) and
      not at all if the first call finished (j == i). */
  lemma BlockingWriteExact(r: seq<Conn>, evs: seq<Event>, i: nat, j: nat)
    requires Run(r, evs) && PremisesHold(r, evs) && i <= j < |evs| && BlockingWrite(r[i], evs[i])
    requires !evs[i].werr.Hard? && forall k | i < k <= j :: !(evs[k].Tick? && evs[k].werr.Hard?)
    requires j > i ==> InProgress(r, i, j) && evs[j].Tick?
    requires !r[j + 1].mode.Writing?
    ensures r[j + 1].accepted == r[i].accepted + evs[i].data
    ensures r[j + 1].results == r[i].results + [Written(|evs[i].data|)]
    ensures r[j + 1].signals == r[i].signals + (if j > i then 1 else 0)
  {
    NoAssertionFails(r, evs, j);
    assert Goes(r, evs, j);
    if j == i {
      FirstRound(r[i], evs[i]);
    } else {
      BlockingWriteSoFar(r, evs, i, j);
      InvAlways(r, evs, j);
      WriteRoundExact(r[j], evs[j].avail, evs[j].werr, r[i].accepted);
    }
  }

  /** A blocking write whose rounds are all accepted, with room for at least one byte each time,
      takes at most as many of them as it has bytes. */
  lemma {:induction false} BlockingWriteEnds(r: seq<Conn>, evs: seq<Event>, i: nat, j: nat)
    requires Run(r, evs) && PremisesHold(r, evs) && i < |evs| && BlockingWrite(r[i], evs[i]) && !evs[i].werr.Hard?
    requires InProgress(r, i, j)
    requires forall k: nat | i < k < j && evs[k].Tick? :: evs[k].werr.Ok? && evs[k].avail > 0
    ensures forall k: nat | i < k < j :: evs[k].Tick?
    ensures j - i - 1 <= r[j].offset < |evs[i].data|
    decreases j
  {
    BlockingWriteSoFar(r, evs, i, j);
    InvAlways(r, evs, j);
    assert r[j].mode.Writing?;
    if j > i + 1 {
      BlockingWriteEnds(r, evs, i, j - 1);
      assert r[j - 1].mode.Writing?;
      InvAlways(r, evs, j - 1);
      NoAssertionFails(r, evs, j - 1);
      assert Goes(r, evs, j - 1);
      TickTakes(r[j - 1], evs[j - 1]);
    }
  }

  /** Only a round can happen to a write in progress that lets it go on. */
  lemma TickTakes(c: Conn, ev: Event)
    requires Inv(c) && Enabled(c, ev) && Asserts(c, ev) && c.mode.Writing? && Step(c, ev).mode.Writing?
    requires ev.Tick? ==> ev.werr.Ok? && ev.avail > 0
    ensures ev.Tick? && Step(c, ev).offset > c.offset
  {
    if ev.Tick? { RoundHere(c, ev); }
  }

  // ---------------------------------------------------------------------------
  // What ends a call

  /** A write without blocking takes what there is room for, at once, or fails and takes nothing. */
  lemma NonblockingWrite(c: Conn, ev: Event)
    requires Enabled(c, ev) && Asserts(c, ev) && Starts(c, ev) && (ev.dontblock || c.nonblocking)
    ensures var c' := Step(c, ev);
      var left := |ev.data|;
      var n := if left <= ev.avail && left <= 0xffff then left else if ev.avail <= 0xffff then ev.avail else 0xffff;
      && c'.mode.Idle? && c'.caller == c.caller
      && (if ev.werr.Ok? && ev.avail > 0 then
            c'.accepted == c.accepted + ev.data[..n] && c'.results == c.results + [Written(n)]
          else c'.accepted == c.accepted && c'.results == c.results + [Failed])
  {
    var c1 := WriteStart(c, ev.data, ev.dontblock);
    var left := |ev.data|;
    var n := if left <= ev.avail && left <= 0xffff then left else if ev.avail <= 0xffff then ev.avail else 0xffff;
    RoundTakes(c1, c1.msg.value, ev.avail, ev.werr, left, n);
    RoundFacts(c1.msg.value, 0, ev.avail, ev.werr);
  }

  /** A write in any other state fails and changes nothing. */
  lemma WriteRefused(c: Conn, ev: Event)
    requires Enabled(c, ev) && Asserts(c, ev) && ev.Write?
    requires c.fatal || !c.mode.Idle? || c.pcb.NoPcb?
    ensures Step(c, ev) == c.(results := c.results + [Failed])
  {
  }

  /** A caller that waits without a token gets one exactly when its request is over: when TCP has
      taken the last byte of its write, or refuses it; when its close succeeds; when its connection
      is there; or when the connection breaks. */
  lemma TokenIffOver(c: Conn, ev: Event)
    requires Inv(c) && Enabled(c, ev) && Asserts(c, ev) && c.caller.Waiting? && c.sem == 0
    ensures Step(c, ev).sem == 1 <==>
      || ev.Broken? || ev.Connected?
      || (ev.Tick? && c.mode.Closing? && ev.closed)
      || (ev.Tick? && c.mode.Writing? && ev.werr.Hard?)
      || (ev.Tick? && c.mode.Writing? && ev.werr.Ok?
          && |c.msg.value.data| - c.offset <= ev.avail && |c.msg.value.data| - c.offset <= 0xffff)
  {
    if ev.Tick? && c.mode.Writing? {
      RoundHere(c, ev);
      WriteMoreInv(c, ev.avail, ev.werr);
    }
  }

  lemma RoundHere(c: Conn, ev: Event)
    requires WriteReady(c) && ev.Tick? && !c.msg.value.dontblock
    ensures var left := |c.msg.value.data| - c.offset;
      var c' := WriteMore(c, ev.avail, ev.werr);
      && (c'.mode.Writing? <==>
            ev.werr.Mem? || (ev.werr.Ok? && !(left <= ev.avail && left <= 0xffff)))
      && (c'.mode.Writing? && ev.werr.Ok? && ev.avail > 0 ==> c'.offset > c.offset)
  {
    var left := |c.msg.value.data| - c.offset;
    var n := if left <= ev.avail && left <= 0xffff then left else if ev.avail <= 0xffff then ev.avail else 0xffff;
    RoundTakes(c, c.msg.value, ev.avail, ev.werr, left, n);
  }

  /** What a close comes to: refused at once when another request is under way or there is nothing
      to close, otherwise over when TCP closes, with the pcb gone exactly if both directions were
      to be shut down. */
  lemma CloseEnds(c: Conn, ev: Event)
    requires Inv(c) && Enabled(c, ev) && Asserts(c, ev) && ev.Close?
    ensures var c' := Step(c, ev);
      && c'.caller == Waiting(false)
      && (if !(c.mode.Idle? || c.mode.Listening?) || c.pcb.NoPcb? || (c.mode.Listening? && !(ev.rx && ev.tx)) then
            c'.sem == 1 && c'.mode == c.mode && c'.pcb == c.pcb
          else if ev.closed then c'.sem == 1 && c'.mode.Idle? && (c'.pcb.NoPcb? <==> ev.rx && ev.tx)
          else c'.sem == 0 && c'.mode.Closing? && c'.pcb == c.pcb && c'.msg == Some(CloseMsg(ev.rx, ev.tx)))
  {
  }

  lemma CloseTickEnds(c: Conn, ev: Event)
    requires Inv(c) && Enabled(c, ev) && Asserts(c, ev) && ev.Tick? && c.mode.Closing?
    ensures var c' := Step(c, ev);
      if ev.closed then c'.mode.Idle? && (c'.pcb.NoPcb? <==> c.msg.value.rx && c.msg.value.tx) else c' == c
  {
  }

  /** Exactly when the other requests take effect; their callers wait without a token only for a
      blocking connect and a close that TCP does not grant at once. */
  lemma RequestTakesEffect(c: Conn, ev: Event)
    requires Inv(c) && Enabled(c, ev) && Asserts(c, ev) && !ev.Write? && !ev.Close? && IsCall(ev)
    ensures var c' := Step(c, ev);
      && (ev.SetNonblocking? ==> c' == c.(nonblocking := ev.on))
      && (ev.Connect? ==>
            && (c'.mode.Connecting? && !c.mode.Connecting? <==> c.pcb.Pcb? && c.mode.Idle? && ev.started)
            && (c'.mode.Connecting? && !c.mode.Connecting? ==> c'.inNbConnect == c.nonblocking)
            && (c'.sem == 0 <==> c.pcb.Pcb? && c.mode.Idle? && ev.started && !c.nonblocking))
      && (ev.Listen? ==>
            && (c'.mode.Listening? && !c.mode.Listening? <==>
                  !c.fatal && c.pcb.Pcb? && c.mode.Idle? && ev.gotPcb && ev.gotMbox)
            && (c'.pcb.NoPcb? && c.pcb.Pcb? <==> !c.fatal && c.pcb.Pcb? && c.mode.Idle? && ev.gotPcb && !ev.gotMbox)
            && c'.caller == c.caller)
      && (ev.Delete? ==>
            && c'.deleting && (c'.sem == 0 <==> c.pcb.Pcb? && !ev.closed)
            && (c'.pcb.Pcb? <==> c.pcb.Pcb? && !ev.closed))
  {
  }

  /** And what the end of a connection or of its setup leaves behind. */
  lemma ConnectionEnds(c: Conn, ev: Event)
    requires Inv(c) && Enabled(c, ev) && Asserts(c, ev) && (ev.Broken? || ev.Connected?)
    ensures var c' := Step(c, ev);
      && c'.mode.Idle? && c'.msg.None? && !c'.inNbConnect && c'.accepted == c.accepted
      && c'.results == c.results + (if ev.Broken? && c.mode.Writing? then [Failed] else [])
      && (ev.Broken? ==> c'.pcb.NoPcb? && c'.fatal == ev.fatal) && (ev.Connected? ==> c'.pcb == c.pcb)
      && c'.signals == c.signals + (if c.msg.Some? then 1 else 0)
  {
  }

  // ---------------------------------------------------------------------------
  // The code

  class TcpNetconn {
    var mode: Mode
    var msg: Option<Msg>
    var offset: nat
    var pcb: Pcb
    var nonblocking: bool
    var inNbConnect: bool
    var delayed: bool
    var fatal: bool
    var sem: nat
    var signals: nat
    var caller: Caller
    var deleting: bool
    var accepted: string
    var results: seq<Result>

    function Fields(): Conn
      reads this
    {
      Conn(mode, msg, offset, pcb, nonblocking, inNbConnect, delayed, fatal,
           sem, signals, caller, deleting, accepted, results)
    }

    method SemSignal()
      modifies `sem, `signals
      ensures Fields() == old(Fields()).Signal()
    {
      sem := 1;
      signals := signals + 1;
    }

    /** The first half of lwip_netconn_do_writemore: how much to write, and what the
        answer of tcp_write means. */
    method AttemptWrite(m: Msg, avail: nat, werr: Err) returns (o: Round)
      requires m.WriteMsg? && offset < |m.data|
      ensures o == TryWrite(m, offset, avail, werr)
      ensures werr.Ok? && !(m.dontblock && avail == 0) ==>
        var left := |m.data| - offset;
        o.n == if left <= avail && left <= 0xffff then left else if avail <= 0xffff then avail else 0xffff
      ensures !werr.Ok? || (m.dontblock && avail == 0) ==> o.n == 0
    {
      var diff := |m.data| - offset;
      var len, late := diff, false;
      if diff > U16_MAX {
        len, late := U16_MAX, true;
      }
      if avail < len {
        len := avail;
        if m.dontblock {
          if len == 0 { return Round(0, late, Some(Failed)); }
        } else {
          late := true;
        }
      }
      assert offset + len <= |m.data|;
      if werr.Ok? {
        o := Round(len, late, if offset + len == |m.data| || m.dontblock then Some(Written(offset + len)) else None);
      } else if werr.Mem? && !m.dontblock {
        o := Round(0, true, None);
      } else {
        o := Round(0, late, Some(Failed));
      }
    }

    method Finish(res: Result)
      modifies `msg, `mode, `results, `sem, `signals
      ensures Fields() == WriteOver(old(Fields()), res)
    {
      results := results + [res];
      msg := None;
      mode := Idle;
      if delayed { SemSignal(); }
    }

    /** The second half: book what was written, and finish the request if it is over. */
    method FinishRound(m: Msg, o: Round)
      requires m.WriteMsg? && offset + o.n <= |m.data|
      modifies this
      ensures Fields() == ApplyRound(old(Fields()), m, o)
    {
      if o.late { delayed := true; }
      accepted := accepted + m.data[offset..offset + o.n];
      if o.over.None? {
        offset := offset + o.n;
        return;
      }
      if o.over.value.Written? { offset := 0; }
      Finish(o.over.value);
    }

    /** lwip_netconn_do_writemore; true if sending has not finished. */
    method DoWriteMore(avail: nat, werr: Err) returns (again: bool)
      requires WriteReady(Fields())
      modifies this
      ensures Fields() == WriteMore(old(Fields()), avail, werr)
      ensures again <==> mode.Writing?
    {
      var o := AttemptWrite(msg.value, avail, werr);
      FinishRound(msg.value, o);
      again := o.over.None?;
    }

    method Begin(data: string, dontblock: bool)
      modifies `mode, `msg, `offset, `delayed
      ensures Fields() == WriteStart(old(Fields()), data, dontblock)
    {
      mode := Writing;
      msg := Some(WriteMsg(data, dontblock || nonblocking));
      offset := 0;
      delayed := false;
    }

    /** lwip_netconn_do_write, up to the point where it returns or waits. */
    method DoWrite(data: string, dontblock: bool, avail: nat, werr: Err)
      requires Enabled(Fields(), Write(data, dontblock, avail, werr))
      requires Asserts(Fields(), Write(data, dontblock, avail, werr))
      modifies this
      ensures Fields() == Step(old(Fields()), Write(data, dontblock, avail, werr))
    {
      if fatal || !mode.Idle? || pcb.NoPcb? {
        results := results + [Failed];
      } else {
        Begin(data, dontblock);
        var again := DoWriteMore(avail, werr);
        if again { caller := Waiting(true); }
      }
    }

    /** lwip_netconn_do_close_internal */
    method DoCloseInternal(ok: bool)
      requires CloseReady(Fields())
      modifies this
      ensures Fields() == CloseMore(old(Fields()), ok)
    {
      var close := msg.value.rx && msg.value.tx;
      if ok {
        msg := None;
        mode := Idle;
        if close { pcb := NoPcb; }
        SemSignal();
      }
    }

    /** lwip_netconn_do_close */
    method DoClose(rx: bool, tx: bool, closed: bool)
      requires Enabled(Fields(), Close(rx, tx, closed)) && Asserts(Fields(), Close(rx, tx, closed))
      modifies this
      ensures Fields() == Step(old(Fields()), Close(rx, tx, closed))
    {
      caller := Waiting(false);
      if !mode.Idle? && !mode.Listening? {
        SemSignal();
      } else if pcb.Pcb? {
        if !(rx && tx) && mode.Listening? {
          SemSignal();
        } else {
          mode := Closing;
          msg := Some(CloseMsg(rx, tx));
          DoCloseInternal(closed);
        }
      } else {
        SemSignal();
      }
    }

    /** lwip_netconn_do_delconn */
    method DoDelconn(closed: bool)
      requires Enabled(Fields(), Delete(closed)) && Asserts(Fields(), Delete(closed))
      modifies this
      ensures Fields() == Step(old(Fields()), Delete(closed))
    {
      caller, deleting := Waiting(false), true;
      if !mode.Idle? && !mode.Listening? && !mode.Connecting? {
        SemSignal();
      } else {
        if pcb.Pcb? {
          mode := Closing;
          msg := Some(CloseMsg(true, true));
          DoCloseInternal(closed);
        } else {
          SemSignal();
        }
      }
    }

    /** lwip_netconn_do_connect */
    method DoConnect(started: bool)
      requires Enabled(Fields(), Connect(started)) && Asserts(Fields(), Connect(started))
      modifies this
      ensures Fields() == Step(old(Fields()), Connect(started))
    {
      caller := Waiting(false);
      if pcb.NoPcb? || !mode.Idle? {
        SemSignal();
      } else if started {
        mode := Connecting;
        inNbConnect := nonblocking;
        if nonblocking { SemSignal(); } else { msg := Some(ConnectMsg); }
      } else {
        SemSignal();
      }
    }

    /** lwip_netconn_do_connected */
    method DoConnected()
      requires Enabled(Fields(), Connected) && Asserts(Fields(), Connected)
      modifies this
      ensures Fields() == Step(old(Fields()), Connected)
    {
      var wasBlocking := !inNbConnect;
      inNbConnect := false;
      msg := None;
      mode := Idle;
      if wasBlocking { SemSignal(); }
    }

    /** err_tcp */
    method ErrTcp(isFatal: bool)
      requires Enabled(Fields(), Broken(isFatal)) && Asserts(Fields(), Broken(isFatal))
      modifies this
      ensures Fields() == Step(old(Fields()), Broken(isFatal))
    {
      Break(isFatal);
    }

    method Break(isFatal: bool)
      modifies this
      ensures Fields() == AfterBreak(old(Fields()), isFatal)
    {
      pcb := NoPcb;
      fatal := isFatal;
      var oldMode := mode;
      mode := Idle;
      if oldMode.Writing? || oldMode.Closing? || oldMode.Connecting? {
        var wasNonblocking := inNbConnect;
        inNbConnect := false;
        if !wasNonblocking {
          if oldMode.Writing? { results := results + [Failed]; }
          msg := None;
          SemSignal();
        }
      }
    }

    /** sent_tcp and poll_tcp */
    method SentOrPoll(avail: nat, werr: Err, closed: bool)
      requires Enabled(Fields(), Tick(avail, werr, closed)) && Asserts(Fields(), Tick(avail, werr, closed))
      modifies this
      ensures Fields() == Step(old(Fields()), Tick(avail, werr, closed))
    {
      if mode.Writing? {
        var _ := DoWriteMore(avail, werr);
      } else if mode.Closing? {
        DoCloseInternal(closed);
      }
    }

    constructor (p: Pcb)
      requires p.Pcb? ==> !p.listen
      ensures Init(Fields()) && pcb == p && !fatal && !nonblocking && accepted == "" && results == []
    {
      mode, msg, offset, pcb := Idle, None, 0, p;
      nonblocking, inNbConnect, delayed, fatal := false, false, false, false;
      sem, signals, caller, deleting := 0, 0, Free, false;
      accepted, results := "", [];
    }

    /** lwip_netconn_do_listen, as far as these fields go. */
    method DoListen(gotPcb: bool, gotMbox: bool)
      requires Enabled(Fields(), Listen(gotPcb, gotMbox))
      modifies this
      ensures Fields() == Step(old(Fields()), Listen(gotPcb, gotMbox))
    {
      if !fatal && pcb.Pcb? && mode.Idle? && gotPcb {
        if gotMbox {
          mode, pcb := Listening, Pcb(true);
        } else {
          pcb := NoPcb;
        }
      }
    }

    /** sys_arch_sem_wait on op_completed returns, and the caller goes on. */
    method Woken()
      requires Enabled(Fields(), Wake) && Asserts(Fields(), Wake)
      modifies this
      ensures Fields() == Step(old(Fields()), Wake)
    {
      sem := sem - 1;
      caller := Free;
    }

    /** Any request of the application. */
    method Call(ev: Event)
      requires Enabled(Fields(), ev) && Asserts(Fields(), ev) && IsCall(ev)
      modifies this
      ensures Fields() == Step(old(Fields()), ev)
    {
      match ev
      case Write(data, dontblock, avail, werr) => DoWrite(data, dontblock, avail, werr);
      case Close(rx, tx, closed) => DoClose(rx, tx, closed);
      case Delete(closed) => DoDelconn(closed);
      case Connect(started) => DoConnect(started);
      case Listen(gotPcb, gotMbox) => DoListen(gotPcb, gotMbox);
      case SetNonblocking(on) => nonblocking := on;
    }

    /** Any callback, or the caller's wake-up. */
    method Callback(ev: Event)
      requires Enabled(Fields(), ev) && Asserts(Fields(), ev) && !IsCall(ev)
      modifies this
      ensures Fields() == Step(old(Fields()), ev)
    {
      match ev
      case Tick(avail, werr, closed) => SentOrPoll(avail, werr, closed);
      case Broken(isFatal) => ErrTcp(isFatal);
      case Connected => DoConnected();
      case Wake => Woken();
    }

    /** Whatever happens, where it can and the premises hold: it meets the assertions on its way
        and keeps the invariant. */
    method Handle(ev: Event)
      requires Inv(Fields()) && Enabled(Fields(), ev) && Premises(Fields(), ev)
      modifies this
      ensures Inv(Fields())
      ensures Asserts(old(Fields()), ev) && Fields() == Step(old(Fields()), ev)
    {
      AssertsHold(Fields(), ev);
      InvStep(Fields(), ev);
      if IsCall(ev) { Call(ev); } else { Callback(ev); }
    }
  }

  /** The states a netconn goes through when it is offered these events; one that cannot happen,
      or breaks the premises, is passed over. */
  function Play(c: Conn, evs: seq<Event>): Conn {
    if |evs| == 0 then c
    else
      Offer(Play(c, evs[..|evs| - 1]), evs[|evs| - 1])
  }

  function Offer(c: Conn, ev: Event): Conn {
    if Enabled(c, ev) && Premises(c, ev) && Asserts(c, ev) then Step(c, ev) else c
  }

  /** The code, driven by any events: it goes through the states of the model, every assertion on
      its way holds, and the invariant does at its end. */
  method Drive(p: Pcb, evs: seq<Event>) returns (c: Conn, start: Conn)
    requires p.Pcb? ==> !p.listen
    ensures Init(start) && start.pcb == p && !start.fatal && !start.nonblocking
    ensures c == Play(start, evs) && Inv(c)
  {
    var n := new TcpNetconn(p);
    start := n.Fields();
    for i := 0 to |evs|
      invariant Inv(n.Fields()) && n.Fields() == Play(start, evs[..i])
    {
      assert evs[..i + 1][..i] == evs[..i];
      if Enabled(n.Fields(), evs[i]) && Premises(n.Fields(), evs[i]) { n.Handle(evs[i]); }
    }
    assert evs[..|evs|] == evs;
    c := n.Fields();
  }

  /** So the states it goes through are those of a run that keeps to the premises. */
  lemma {:induction false} PlayIsRun(c: Conn, evs: seq<Event>) returns (r: seq<Conn>, some: seq<Event>)
    requires Init(c)
    ensures Run(r, some) && PremisesHold(r, some) && r[0] == c && r[|r| - 1] == Play(c, evs)
  {
    if |evs| == 0 {
      r, some := [c], [];
    } else {
      r, some := PlayIsRun(c, evs[..|evs| - 1]);
      r, some := Offered(r, some, evs[|evs| - 1]);
    }
  }

  lemma Offered(r: seq<Conn>, evs: seq<Event>, ev: Event) returns (r': seq<Conn>, evs': seq<Event>)
    requires Run(r, evs) && PremisesHold(r, evs)
    ensures Run(r', evs') && PremisesHold(r', evs') && r'[0] == r[0] && r'[|r'| - 1] == Offer(r[|r| - 1], ev)
  {
    r', evs' := r, evs;
    if Enabled(r[|r| - 1], ev) && Premises(r[|r| - 1], ev) && Asserts(r[|r| - 1], ev) {
      r', evs' := OneMore(r, evs, ev);
    }
  }

  lemma OneMore(r: seq<Conn>, evs: seq<Event>, ev: Event) returns (r': seq<Conn>, evs': seq<Event>)
    requires Run(r, evs) && PremisesHold(r, evs)
    requires Enabled(r[|r| - 1], ev) && Premises(r[|r| - 1], ev) && Asserts(r[|r| - 1], ev)
    ensures Run(r', evs') && PremisesHold(r', evs') && r'[0] == r[0] && r'[|r'| - 1] == Step(r[|r| - 1], ev)
  {
    var n := |evs|;
    r', evs' := r + [Step(r[n], ev)], evs + [ev];
    forall i | 0 <= i < |evs'| ensures Goes(r', evs', i) && Sane(r', evs', i) {
      if i < n { assert Goes(r, evs, i) && Sane(r, evs, i); }
    }
  }
}
