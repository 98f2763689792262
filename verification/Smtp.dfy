/** The SMTP client session (smtp_process and the TCP callbacks around it in
    contrib/apps/smtp/smtp.c), for every sequence of replies, polls, write failures, failed
    closes and errors. */
module Smtp {
  import opened Basics
  import opened MailText
  import opened SmtpScript

  datatype Outcome = Ok | ErrConnect | ErrHostname | ErrClosed | ErrTimeout | ErrSvrResp

  /** Timeouts, in polls: two minutes, three for a piece of the body, ten after its end. */
  const SMTP_POLL_INTERVAL: nat := 4
  const SMTP_TIMEOUT: nat := 2 * 60 * SMTP_POLL_INTERVAL / 2
  const SMTP_TIMEOUT_DATABLOCK: nat := 3 * 60 * SMTP_POLL_INTERVAL / 2
  const SMTP_TIMEOUT_DATATERM: nat := 10 * 60 * SMTP_POLL_INTERVAL / 2

  // ---------------------------------------------------------------------------
  // The session as a value

  /** heard is all text received, start where the text not yet acted upon begins, and cues the
      replies acted upon, one for each line said. */
  datatype View = View(state: State, bodySent: nat, auth: Auth, written: string, heard: string, start: nat,
                       cues: seq<Cue>, results: seq<Outcome>, alive: bool)

  /** What has been said and heard is the script, up to where the state says. */
  ghost predicate Told(m: Mail, v: View) {
    && Consistent(v.auth, v.state)
    && ToldBy(Script(m, v.auth), Index(v.auth, v.state), m.letter.body, v)
  }

  ghost predicate ToldBy(script: seq<Line>, k: nat, body: string, v: View) {
    && k <= |script| && v.bodySent <= |body|
    && v.written == Text(script[..k]) + (if v.state.Body? then body[..v.bodySent] else "")
    && HeardBy(script, v.auth, k, v.heard, v.start, v.cues)
  }

  /** Each of the first k lines has its reply, all before start, and no two share any text. */
  ghost predicate HeardBy(script: seq<Line>, a: Auth, k: nat, heard: string, start: nat, cues: seq<Cue>)
    requires k <= |script|
  {
    && |cues| == k && start <= |heard| && (k > 0 ==> cues[k - 1].to <= start)
    && Ordered(cues)
    && forall i: nat | i < k :: CueAt(script, a, heard, cues, i)
  }

  /** The result is reported once, when the session ends, and as success only at the end. */
  ghost predicate Reported(callback: bool, v: View) {
    && (v.alive ==> v.results == [] && !v.state.Closed?)
    && |v.results| <= 1
    && (!v.alive && callback ==> |v.results| == 1)
    && (forall r | r in v.results :: r == Ok <==> v.state.Closed?)
  }

  ghost predicate Sound(m: Mail, callback: bool, v: View) { Told(m, v) && Reported(callback, v) }

  // ---------------------------------------------------------------------------
  // Listening

  lemma CueKept(script: seq<Line>, a: Auth, i: nat, heard: string, more: string, c: Cue)
    requires i < |script| && CueFor(script, a, i, heard, c)
    ensures CueFor(script, a, i, heard + more, c)
  {
    assert (heard + more)[c.from..c.to] == heard[c.from..c.to];
  }

  /** More text keeps what was answered where it is. */
  lemma HeardMore(m: Mail, v: View, more: string)
    requires Told(m, v)
    ensures Told(m, v.(heard := v.heard + more))
  {
    var script := Script(m, v.auth);
    forall i: nat | i < |v.cues| ensures CueAt(script, v.auth, v.heard + more, v.cues, i) {
      assert CueAt(script, v.auth, v.heard, v.cues, i);
      CueKept(script, v.auth, i, v.heard, more, v.cues[i]);
    }
  }

  // ---------------------------------------------------------------------------
  // Speaking

  /** The session after an answer to the reply that all pending text is. */
  ghost function Spoken(v: View, r: Answer): View {
    v.(state := r.next, auth := AuthAfter(v.auth, v.state, r.next), written := v.written + r.tx,
       cues := v.cues + [Cue(v.start, |v.heard|)], start := |v.heard|)
  }

  lemma LineSaid(m: Mail, v: View, code: nat, t: string)
    requires Told(m, v) && Reply(m, v.state, code, t).next != v.state && (v.bodySent > 0 ==> v.state.Quit?)
    requires t == v.heard[v.start..] && Complete(t) && code == ResponseCode(Some(t))
    ensures Told(m, Spoken(v, Reply(m, v.state, code, t)))
    ensures !v.state.Body? && (Reply(m, v.state, code, t).next.Closed? <==> v.state.Quit?)
  {
    var r := Reply(m, v.state, code, t);
    var b := AuthAfter(v.auth, v.state, r.next);
    var k := Index(v.auth, v.state);
    ReplyIsNextLine(m, v.auth, v.state, code, t);
    ReplySuits(m, v.auth, v.state, code, t);
    if v.state.Helo? { SameFirstLine(m, v, b); }
    NextTold(Script(m, b), k, m.letter.body, v.(auth := b), r.next);
  }

  /** The first line is the same for every mechanism. */
  lemma SameFirstLine(m: Mail, v: View, b: Auth)
    requires Told(m, v) && v.state.Helo?
    ensures ToldBy(Script(m, b), 1, m.letter.body, v.(auth := b))
  {
    SameStart(m, v.auth, b, 1);
    assert CueAt(Script(m, v.auth), v.auth, v.heard, v.cues, 0);
    assert CueAt(Script(m, b), b, v.heard, v.cues, 0);
  }

  lemma NextTold(script: seq<Line>, k: nat, body: string, v: View, next: State)
    requires k < |script| && script[k].code != 0 && ToldBy(script, k, body, v) && !v.state.Body?
    requires next.Body? ==> v.bodySent == 0
    requires var t := v.heard[v.start..];
             Complete(t) && ResponseCode(Some(t)) == script[k].code && Suits(v.auth, k, t)
    ensures ToldBy(script, k + 1, body,
                   v.(state := next, written := v.written + script[k].text,
                      cues := v.cues + [Cue(v.start, |v.heard|)], start := |v.heard|))
  {
    NextText(script, k);
    var c, cues := Cue(v.start, |v.heard|), v.cues + [Cue(v.start, |v.heard|)];
    assert v.heard[v.start..|v.heard|] == v.heard[v.start..];
    Appended(v.cues, c);
    forall i: nat | i < k + 1 ensures CueAt(script, v.auth, v.heard, cues, i) {
      if i < k { assert CueAt(script, v.auth, v.heard, v.cues, i); }
    }
  }

  lemma Appended(cues: seq<Cue>, c: Cue)
    requires Ordered(cues) && (|cues| > 0 ==> cues[|cues| - 1].to <= c.from)
    ensures Ordered(cues + [c])
  {
    forall i: nat | i + 1 < |cues + [c]| ensures Apart(cues + [c], i) {
      if i + 1 < |cues| { assert Apart(cues, i); }
    }
  }

  lemma BodySaid(m: Mail, v: View, n: nat)
    requires Told(m, v) && v.state.Body? && v.bodySent + n <= |m.letter.body|
    ensures Told(m, v.(bodySent := v.bodySent + n,
                       written := v.written + m.letter.body[v.bodySent..v.bodySent + n]))
  {
    BodyTold(Script(m, v.auth), Index(v.auth, Body), m.letter.body, v, n);
  }

  lemma BodyTold(script: seq<Line>, k: nat, b: string, v: View, n: nat)
    requires ToldBy(script, k, b, v) && v.state.Body? && v.bodySent + n <= |b|
    ensures ToldBy(script, k, b, v.(bodySent := v.bodySent + n,
                                    written := v.written + b[v.bodySent..v.bodySent + n]))
  {
    assert b[..v.bodySent] + b[v.bodySent..v.bodySent + n] == b[..v.bodySent + n];
  }

  /** The session after the terminator: the body and the terminator answer nothing. */
  ghost function Ended(v: View): View {
    v.(state := Quit, written := v.written + END_OF_DATA,
       cues := v.cues + [Cue(v.start, v.start)] + [Cue(v.start, v.start)])
  }

  lemma EndSaid(m: Mail, v: View)
    requires Told(m, v) && v.state.Body? && v.bodySent == |m.letter.body|
    ensures Told(m, Ended(v))
  {
    ScriptEnd(m, v.auth);
    EndTold(Script(m, v.auth), Index(v.auth, Body), m.letter.body, v);
  }

  lemma EndTold(script: seq<Line>, k: nat, body: string, v: View)
    requires k + 1 < |script| && script[k] == Line(0, body) && script[k + 1] == Line(0, END_OF_DATA)
    requires ToldBy(script, k, body, v) && v.state.Body? && v.bodySent == |body|
    ensures ToldBy(script, k + 2, body, Ended(v))
  {
    NextText(script, k);
    NextText(script, k + 1);
    assert body[..v.bodySent] == body;
    var c := Cue(v.start, v.start);
    Appended(v.cues, c);
    Appended(v.cues + [c], c);
    forall i: nat | i < k + 2 ensures CueAt(script, v.auth, v.heard, Ended(v).cues, i) {
      if i < k { assert CueAt(script, v.auth, v.heard, v.cues, i); }
    }
  }

  // ---------------------------------------------------------------------------
  // What it comes to

  /** What was written is the beginning of the script, and every line begun that waits for a
      reply has one in what was received: complete, with its code, and its own. */
  ghost predicate InStep(script: seq<Line>, a: Auth, heard: string, written: string, cues: seq<Cue>) {
    && written <= Text(script) && |cues| <= |script| && Ordered(cues)
    && forall i: nat | i < |script| :: Cued(script, a, i, heard, written, cues)
  }

  ghost predicate Cued(script: seq<Line>, a: Auth, i: nat, heard: string, written: string, cues: seq<Cue>)
    requires i < |script|
  {
    script[i].code != 0 && |Text(script[..i])| < |written| ==>
      i < |cues| && CueFor(script, a, i, heard, cues[i])
  }

  /** The text received justifies the text written and the results reported: success means that
      the whole script was written. */
  ghost predicate Justified(m: Mail, heard: string, written: string, results: seq<Outcome>) {
    && |results| <= 1
    && exists a, cues ::
         InStep(Script(m, a), a, heard, written, cues) && (Ok in results ==> written == Text(Script(m, a)))
  }

  /** Complete up to line k, or in the middle of line k if it waits for nothing. */
  lemma ToldInStep(script: seq<Line>, k: nat, body: string, v: View)
    requires ToldBy(script, k, body, v)
    requires v.state.Body? ==> k < |script| && script[k] == Line(0, body)
    ensures InStep(script, v.auth, v.heard, v.written, v.cues)
  {
    var j := if v.state.Body? then k + 1 else k;
    if v.state.Body? {
      NextText(script, k);
      assert body[..v.bodySent] <= body;
    }
    assert v.written <= Text(script[..j]);
    assert script[..|script|] == script;
    TextGrows(script, j, |script|);
    forall i: nat | i < |script| ensures Cued(script, v.auth, i, v.heard, v.written, v.cues) {
      if i >= j {
        TextGrows(script, j, i);
      } else if i < k {
        assert CueAt(script, v.auth, v.heard, v.cues, i);
      }
    }
  }

  lemma ToldAll(script: seq<Line>, body: string, v: View)
    requires ToldBy(script, |script|, body, v) && !v.state.Body?
    ensures v.written == Text(script)
  {
    assert script[..|script|] == script;
  }

  /** Text that comes later changes nothing. */
  lemma InStepMore(script: seq<Line>, a: Auth, heard: string, more: string, written: string, cues: seq<Cue>)
    requires InStep(script, a, heard, written, cues)
    ensures InStep(script, a, heard + more, written, cues)
  {
    forall i: nat | i < |script| ensures Cued(script, a, i, heard + more, written, cues) {
      assert Cued(script, a, i, heard, written, cues);
      if i < |cues| && CueFor(script, a, i, heard, cues[i]) { CueKept(script, a, i, heard, more, cues[i]); }
    }
  }

  /** Every state a session can be in is justified by the text it received. */
  lemma SoundIsJustified(m: Mail, callback: bool, v: View)
    requires Sound(m, callback, v)
    ensures Justified(m, v.heard, v.written, v.results)
  {
    var script, k := Script(m, v.auth), Index(v.auth, v.state);
    ScriptEnd(m, v.auth);
    ToldInStep(script, k, m.letter.body, v);
    if v.state.Closed? { ToldAll(script, m.letter.body, v); }
  }

  /** The header is followed at once by the body and the end of the data. */
  function After(next: State): State { if next.Body? then Quit else next }

  /** Each of these replies is complete and the one the client waits for, to the end. */
  ghost predicate Cooperative(m: Mail, st: State, replies: seq<string>)
    decreases |replies|
  {
    if |replies| == 0 then st.Closed?
    else
      var r := Reply(m, st, ResponseCode(Some(replies[0])), replies[0]);
      Complete(replies[0]) && r.next != st && Cooperative(m, After(r.next), replies[1..])
  }

  /** A reply comes in these pieces, after `got`. Every piece but the last leaves it incomplete, and
      already the first holds the code. */
  ghost predicate InPieces(t: string, got: string, pieces: seq<string>)
    decreases |pieces|
  {
    |pieces| > 0 &&
    var more := got + pieces[0];
    if |pieces| == 1 then more == t
    else ResponseCode(Some(more)) != 0 && !IsResponse(more, 0) && InPieces(t, more, pieces[1..])
  }

  /** All of them come in pieces. */
  ghost predicate AllInPieces(replies: seq<string>, pieces: seq<seq<string>>) {
    |pieces| == |replies| && forall i: nat | i < |replies| :: InPieces(replies[i], "", pieces[i])
  }

  lemma CooperativeStep(m: Mail, st: State, a: Auth, replies: seq<string>)
    requires Cooperative(m, st, replies) && !st.Closed?
    ensures |replies| > 0
    ensures var t := replies[0];
      var next := Reply(m, st, ResponseCode(Some(t)), t).next;
      && Complete(t) && next != st && Cooperative(m, After(next), replies[1..])
      && (st.Null? ==> next.Helo?) && (!st.Null? ==> !next.Null? && !next.Helo?)
      && AuthAfter(a, st, next) == if st.Helo? then Offered(t) else a
  {
  }

  // ---------------------------------------------------------------------------
  // The connection

  /** A TCP connection: a write is taken whole or not at all. A willing one takes every write,
      has room for at least one byte of the body, and can be closed. */
  class Connection {
    const willing: bool
    var written: string

    constructor (w: bool)
      ensures written == "" && willing == w
    {
      willing := w;
      written := "";
    }

    /** tcp_write */
    method Write(data: string) returns (ok: bool)
      modifies this
      ensures written == if ok then old(written) + data else old(written)
      ensures willing ==> ok
    {
      ok := *;
      if willing { ok := true; }
      if ok { written := written + data; }
    }

    /** tcp_sndbuf */
    method SendBuffer() returns (n: nat)
      ensures willing ==> n > 0
    {
      n := *;
      if willing && n < 1 { n := 1; }
    }

    /** tcp_close */
    method Close() returns (ok: bool)
      ensures willing ==> ok
    {
      ok := *;
      if willing { ok := true; }
    }
  }

  // ---------------------------------------------------------------------------
  // The session

  class Session {
    const mail: Mail
    const callback: bool
    const pcb: Connection
    var state: State
    var timer: nat
    var p: Option<string>
    var bodySent: nat
    /** The session is the argument of its connection. */
    var alive: bool
    var results: seq<Outcome>
    // What led here
    ghost var auth: Auth
    ghost var heard: string
    ghost var start: nat
    ghost var cues: seq<Cue>

    ghost function Now(): View
      reads this, pcb
    {
      View(state, bodySent, auth, pcb.written, heard, start, cues, results, alive)
    }

    /** p is the text not yet acted upon, and the body is not begun too early. */
    ghost predicate Holds()
      reads this
    {
      && start <= |heard|
      && (alive ==> heard[start..] == if p.Some? then p.value else "")
      && (bodySent > 0 ==> state in {Body, Quit, Closed})
      && bodySent <= |mail.letter.body|
    }

    ghost predicate Valid()
      reads this, pcb
    {
      Sound(mail, callback, Now()) && Holds()
    }

    /** A session on a willing connection with no text pending. */
    ghost predicate Listening()
      reads this, pcb
    {
      Valid() && pcb.willing && (alive <==> !state.Closed?) && (alive ==> p.None?)
    }

    /** Between the last line and the end of the session only the report is missing. */
    ghost predicate Coherent()
      reads this, pcb
    {
      Told(mail, Now()) && Holds()
    }

    constructor (m: Mail, cb: bool, c: Connection)
      requires c.written == ""
      ensures Valid() && mail == m && callback == cb && pcb == c
      ensures alive && results == [] && state.Null? && p.None? && heard == ""
    {
      mail, callback, pcb := m, cb, c;
      state, timer, p, bodySent := Null, SMTP_TIMEOUT, None, 0;
      alive, results := true, [];
      auth, heard, start, cues := NoAuth, "", 0, [];
    }

    /** smtp_free */
    method Free(result: Outcome)
      requires alive && Coherent()
      requires results == [] && (result == Ok <==> state.Closed?)
      modifies `alive, `results, `p
      ensures !alive && Valid()
      ensures results == if callback then [result] else []
    {
      p := None;
      alive := false;
      if callback { results := results + [result]; }
    }

    /** The session was closed with this result, or is as it was, because it was over before or TCP
        would not close. */
    twostate predicate ClosedOrSame(result: Outcome)
      reads this, pcb
    {
      || (Now() == old(Now()) && (pcb.willing ==> !alive))
      || (old(alive) && Now() == old(Now()).(alive := false, results := if callback then [result] else []))
    }

    /** What every call keeps: nothing written is taken back, text t was received if the session
        was alive, and a session that is over stays as it is. */
    twostate predicate Stepped(t: string)
      reads this, pcb
    {
      && old(pcb.written) <= pcb.written
      && (alive ==> old(alive))
      && heard == (if old(alive) then old(heard) + t else old(heard))
      && (!old(alive) ==> Now() == old(Now()))
    }

    /** smtp_close */
    method Close(result: Outcome)
      requires Valid() && result != Ok
      modifies `alive, `results, `p
      ensures Valid() && ClosedOrSame(result) && Stepped("")
      ensures alive ==> p == old(p)
    {
      var ok := pcb.Close();
      if ok && alive { Free(result); }
    }

    /** The timer is set only when something is written. */
    twostate predicate Ticks()
      reads this, pcb
    {
      pcb.written == old(pcb.written) ==> timer == old(timer)
    }

    /** smtp_send_body */
    method SendBody()
      requires Valid() && alive
      modifies `timer, `state, `bodySent, `cues, pcb
      ensures Valid()
      ensures old(pcb.written) <= pcb.written && (old(timer) > 0 ==> timer > 0) && Ticks()
      ensures pcb.willing && old(state).Body? ==> state.Quit? || (state.Body? && bodySent > old(bodySent))
      ensures !old(state).Body? ==> Now() == old(Now())
    {
      if state.Body? {
        SendPiece();
        if bodySent == |mail.letter.body| { SendEnd(); }
      }
    }

    /** The terminator, if the write succeeds. */
    method SendEnd()
      requires Valid() && alive && state.Body? && bodySent == |mail.letter.body|
      modifies `timer, `state, `cues, pcb
      ensures Valid()
      ensures Now() == (if state.Body? then old(Now()) else Ended(old(Now()))) && Ticks()
      ensures (pcb.willing ==> state.Quit?) && timer == if state.Body? then old(timer) else SMTP_TIMEOUT_DATATERM
    {
      EndSaid(mail, Now());
      var ok := pcb.Write(END_OF_DATA);
      if ok {
        timer := SMTP_TIMEOUT_DATATERM;
        cues := cues + [Cue(start, start)] + [Cue(start, start)];
        state := Quit;
      }
    }

    /** As much of the body as the send buffer takes. */
    method SendPiece()
      requires Valid() && alive && state.Body?
      modifies `timer, `bodySent, pcb
      ensures Valid()
      ensures old(pcb.written) <= pcb.written && bodySent >= old(bodySent) && (old(timer) > 0 ==> timer > 0) && Ticks()
      ensures pcb.willing ==> bodySent > old(bodySent) || bodySent == |mail.letter.body|
    {
      var sendLen := |mail.letter.body| - bodySent;
      if sendLen > 0 {
        var sndBuf := pcb.SendBuffer();
        if sendLen > sndBuf { sendLen := sndBuf; }
        if sendLen > 0 { WriteBody(sendLen); }
      }
    }

    /** The next n bytes of the body, if the write succeeds. */
    method WriteBody(n: nat)
      requires Valid() && alive && state.Body? && bodySent + n <= |mail.letter.body| && n > 0
      modifies `timer, `bodySent, pcb
      ensures Valid()
      ensures old(pcb.written) <= pcb.written && Ticks()
      ensures || (bodySent == old(bodySent) + n && timer == SMTP_TIMEOUT_DATABLOCK)
              || (bodySent == old(bodySent) && timer == old(timer) && !pcb.willing)
    {
      ghost var v := Now();
      BodySaid(mail, v, n);
      var ok := pcb.Write(mail.letter.body[bodySent..bodySent + n]);
      if ok {
        timer := SMTP_TIMEOUT_DATABLOCK;
        bodySent := bodySent + n;
        assert Now() == v.(bodySent := v.bodySent + n,
                           written := v.written + mail.letter.body[v.bodySent..v.bodySent + n]);
      }
    }

    /** What a call acts upon: the text kept from before and the text that came with it. */
    static function Joined(p: Option<string>, received: Option<string>): Option<string> {
      if received.None? then p else if p.None? then received else Some(p.value + received.value)
    }

    static function TextIn(received: Option<string>): string { if received.None? then "" else received.value }

    /** The text is a complete response that this state waits for. */
    ghost predicate Expected(before: State, t: Option<string>) {
      t.Some? && Complete(t.value) && Reply(mail, before, ResponseCode(t), t.value).next != before
    }

    /** smtp_process */
    method Process(received: Option<string>)
      requires Valid()
      modifies this, pcb
      ensures Valid() && Stepped(TextIn(received)) && Ticks()
      ensures received.None? && old(timer) > 0 && old(p).None? && !old(state).Body? ==> Now() == old(Now()) && p.None?
      // only an expected response, or the body in progress, makes it write
      ensures pcb.written != old(pcb.written) ==>
                Expected(old(state), Joined(old(p), received)) || (old(state).Body? && received.None?)
      // the time is up
      ensures received.None? && old(timer) == 0 ==> ClosedOrSame(ErrTimeout)
      // an expected response, just come or kept since a write failed, leads to the next state
      ensures pcb.willing && old(alive) && (received.Some? || (old(timer) > 0 && !old(state).Body?)) &&
              Expected(old(state), Joined(old(p), received)) ==>
                Advanced(old(state), old(auth), Joined(old(p), received))
      // text without a code is thrown away, and an incomplete response kept
      ensures old(alive) && received.Some? ==> KeptOrNot(received.value)
      // the body goes on
      ensures pcb.willing && old(alive) && received.None? && old(timer) > 0 && old(state).Body? ==> BodyGoesOn()
    {
      if !alive { return; }
      if received.Some? {
        Store(received.value);
        Consider();
      } else {
        GoOn();
      }
    }

    /** Text that came: with what was kept it is no response at all, or not a complete one. */
    twostate predicate KeptOrNot(t: string)
      reads this, pcb
    {
      var all := Joined(old(p), Some(t));
      && (ResponseCode(all) == 0 ==>
            p.None? && Now() == old(Now()).(heard := old(heard) + t, start := |old(heard)| + |t|))
      && (ResponseCode(all) != 0 && !IsResponse(all.value, 0) ==>
            p == all && Now() == old(Now()).(heard := old(heard) + t))
    }

    /** More of the body was written, or all of it and the terminator. */
    twostate predicate BodyGoesOn()
      reads this
    {
      && alive && p == old(p) && auth == old(auth) && timer > 0
      && (state.Quit? || (state.Body? && bodySent > old(bodySent)))
    }

    /** Nothing was received. */
    method GoOn()
      requires Valid() && alive
      modifies this, pcb
      ensures Valid() && Stepped("") && Ticks()
      ensures pcb.written != old(pcb.written) ==> Expected(old(state), old(p)) || old(state).Body?
      ensures old(timer) > 0 && old(p).None? && !old(state).Body? ==> Now() == old(Now()) && p.None?
      ensures old(timer) == 0 ==> ClosedOrSame(ErrTimeout)
      ensures pcb.willing && old(timer) > 0 && old(state).Body? ==> BodyGoesOn()
      ensures pcb.willing && old(timer) > 0 && !old(state).Body? && Expected(old(state), old(p)) ==>
                Advanced(old(state), old(auth), old(p))
    {
      if timer == 0 {
        Close(ErrTimeout);
      } else if state.Body? {
        SendBody();
      } else {
        Consider();
      }
    }

    /** The text kept so far is a response to act upon, the beginning of one, or thrown away. */
    method Consider()
      requires Valid() && alive
      modifies this, pcb
      ensures Valid() && Stepped("") && Ticks()
      ensures pcb.written != old(pcb.written) ==> Expected(old(state), old(p))
      ensures pcb.willing && Expected(old(state), old(p)) ==> Advanced(old(state), old(auth), old(p))
      ensures ResponseCode(old(p)) == 0 ==> Now() == old(Now()).(start := |heard|) && p.None?
      ensures ResponseCode(old(p)) != 0 && !IsResponse(old(p).value, 0) ==> Now() == old(Now()) && p == old(p)
    {
      var code := ResponseCode(p);
      if code != 0 {
        var finished := IsResponseFinished(p.value);
        if !finished { return; }
      } else {
        Drop();
        return;
      }
      Respond(code);
    }

    /** Received text is kept until it is acted upon. */
    method Store(t: string)
      requires Valid() && alive
      modifies `p, `heard
      ensures Valid() && p == Joined(old(p), Some(t)) && Now() == old(Now()).(heard := old(heard) + t)
    {
      HeardMore(mail, Now(), t);
      assert (heard + t)[start..] == heard[start..] + t;
      p := if p.None? then Some(t) else Some(p.value + t);
      heard := heard + t;
    }

    /** Text that begins with no code is thrown away. */
    method Drop()
      requires Valid() && alive
      modifies `p, `start
      ensures Valid() && p.None? && Now() == old(Now()).(start := |heard|)
    {
      p := None;
      start := |heard|;
    }

    /** The switch of smtp_process and what follows it. */
    method Respond(code: nat)
      requires Valid() && alive && p.Some? && Complete(p.value) && code == ResponseCode(p)
      modifies this, pcb
      ensures Valid() && Stepped("") && Ticks()
      ensures !Expected(old(state), old(p)) ==> ClosedOrSame(ErrSvrResp)
      ensures pcb.willing && Expected(old(state), old(p)) ==> Advanced(old(state), old(auth), old(p))
    {
      if state.Closed? { return; }
      var r := Reply(mail, state, code, p.value);
      if r.next == state {
        Close(ErrSvrResp);
        return;
      }
      ReplySpeaks(mail, state, code, p.value);
      LineSaid(mail, Now(), code, p.value);
      if |r.tx| > 0 { Answer(r); }
    }

    /** The answer to an expected response, once it is known to continue the script. */
    method Answer(r: SmtpScript.Answer)
      requires Valid() && alive && Told(mail, Spoken(Now(), r)) && (bodySent > 0 ==> r.next.Closed?)
      modifies this, pcb
      ensures Valid() && Stepped("") && (|r.tx| > 0 ==> Ticks())
      ensures pcb.willing ==> auth == AuthAfter(old(auth), old(state), r.next) && Arrived(r.next)
    {
      var ok := Say(r);
      if ok { Proceed(); }
    }

    /** What follows a written command at once. */
    method Proceed()
      requires alive && results == [] && Coherent()
      modifies `timer, `state, `bodySent, `cues, `alive, `results, `p, pcb
      ensures Valid()
      ensures old(pcb.written) <= pcb.written
      ensures alive <==> !old(state).Closed?
      ensures Ticks()
      ensures (alive ==> p == old(p)) && (old(timer) > 0 ==> timer > 0)
      ensures pcb.willing ==> state == old(state) || (old(state).Body? && state.Quit?)
    {
      if state.Body? {
        SendBody();
      } else if state.Closed? {
        Free(Ok);
      }
    }

    /** The session is where this answer leads. */
    ghost predicate Arrived(next: State)
      reads this
    {
      if next.Closed? then !alive && state.Closed?
      else alive && p.None? && timer > 0 && (state == next || (next.Body? && state.Quit?))
    }

    /** The response got the client from `before` to the next state. */
    ghost predicate Advanced(before: State, authBefore: Auth, t: Option<string>)
      requires t.Some?
      reads this
    {
      var r := Reply(mail, before, ResponseCode(t), t.value);
      auth == AuthAfter(authBefore, before, r.next) && Arrived(r.next)
    }

    /** The command is written whole and the state moves on, or nothing changes. */
    method Say(r: SmtpScript.Answer) returns (ok: bool)
      modifies `timer, `p, `auth, `cues, `start, `state, pcb
      ensures old(pcb.written) <= pcb.written && (|r.tx| > 0 ==> Ticks())
      ensures Now() == if ok then Spoken(old(Now()), r) else old(Now())
      ensures if ok then p.None? && timer == SMTP_TIMEOUT else p == old(p) && timer == old(timer)
      ensures pcb.willing ==> ok
    {
      ok := pcb.Write(r.tx);
      if ok {
        timer := SMTP_TIMEOUT;
        p := None;
        auth := AuthAfter(auth, state, r.next);
        cues := cues + [Cue(start, |heard|)];
        start := |heard|;
        state := r.next;
      }
    }

    /** smtp_tcp_poll */
    method Poll()
      requires Valid()
      modifies this, pcb
      ensures Valid() && Stepped("")
      ensures pcb.written == old(pcb.written) && old(alive) && old(timer) > 0 ==> timer == old(timer) - 1
      ensures old(timer) > 1 && old(p).None? && !old(state).Body? ==> Now() == old(Now()) && p.None?
      ensures old(timer) <= 1 ==> ClosedOrSame(ErrTimeout)
      ensures pcb.willing && old(alive) && old(timer) > 1 && !old(state).Body? && Expected(old(state), old(p)) ==>
                Advanced(old(state), old(auth), old(p))
    {
      if alive && timer != 0 { timer := timer - 1; }
      Process(None);
    }

    /** smtp_tcp_recv: no data means that the other side closed. */
    method Recv(received: Option<string>)
      requires Valid()
      modifies this, pcb
      ensures Valid() && Stepped(TextIn(received))
      ensures received.None? ==> ClosedOrSame(ErrClosed)
      ensures old(alive) && received.Some? ==> KeptOrNot(received.value)
      ensures pcb.willing && old(alive) && received.Some? && Expected(old(state), Joined(old(p), received)) ==>
                Advanced(old(state), old(auth), Joined(old(p), received))
    {
      if received.Some? {
        Process(received);
      } else {
        Close(ErrClosed);
      }
    }

    /** One more expected reply from a cooperative server, in pieces. */
    method HearNext(replies: seq<string>, pieces: seq<seq<string>>)
      requires Listening() && Cooperative(mail, state, replies) && !state.Closed?
      requires AllInPieces(replies, pieces)
      modifies this, pcb
      ensures |pieces| == |replies| > 0 && AllInPieces(replies[1..], pieces[1..])
      ensures Listening() && Cooperative(mail, state, replies[1..])
      ensures old(state).Null? ==> state.Helo?
      ensures !old(state).Null? ==> !state.Null? && !state.Helo?
      ensures auth == if old(state).Helo? then Offered(replies[0]) else old(auth)
    {
      CooperativeStep(mail, state, auth, replies);
      HearPieces(replies[0], "", pieces[0]);
      if state.Body? { SendAll(); }
    }

    /** All pieces but the last are kept. */
    method HearPieces(t: string, got: string, pieces: seq<string>)
      requires Valid() && pcb.willing && alive && p == (if got == "" then None else Some(got))
      requires InPieces(t, got, pieces) && Expected(state, Some(t))
      modifies this, pcb
      ensures Valid() && Advanced(old(state), old(auth), Some(t))
      decreases |pieces|
    {
      assert "" + pieces[0] == pieces[0];
      Recv(Some(pieces[0]));
      if |pieces| > 1 { HearPieces(t, got + pieces[0], pieces[1..]); }
    }

    /** TCP calls back whenever it has sent something, until the body is out. */
    method SendAll()
      requires Listening() && state.Body? && timer > 0
      modifies this, pcb
      ensures Listening() && state.Quit? && auth == old(auth)
      decreases |mail.letter.body| - bodySent
    {
      Process(None);
      if state.Body? { SendAll(); }
    }

    method HearRest(replies: seq<string>, pieces: seq<seq<string>>)
      requires Listening() && Cooperative(mail, state, replies) && !state.Null? && !state.Helo?
      requires AllInPieces(replies, pieces)
      modifies this, pcb
      ensures Valid() && state.Closed? && auth == old(auth)
      decreases |replies|
    {
      if state.Closed? { return; }
      HearNext(replies, pieces);
      HearRest(replies[1..], pieces[1..]);
    }

    method HearAll(replies: seq<string>, pieces: seq<seq<string>>)
      requires Listening() && state.Null? && Cooperative(mail, state, replies) && AllInPieces(replies, pieces)
      modifies this, pcb
      ensures Valid() && state.Closed? && |replies| > 1 && Chosen(replies[1], auth)
    {
      HearNext(replies, pieces);
      HearNext(replies[1..], pieces[1..]);
      OfferedIsChosen(replies[1]);
      HearRest(replies[1..][1..], pieces[1..][1..]);
    }

    /** A server that says nothing more: after as many polls as the timer says, and at least one, the
        session is closed and the caller hears of a timeout. */
    method Silence() returns (polls: nat)
      requires Listening() && alive && !state.Body?
      modifies this, pcb
      ensures !alive && Valid() && pcb.written == old(pcb.written) && results == (if callback then [ErrTimeout] else [])
      ensures polls == if old(timer) == 0 then 1 else old(timer)
      decreases timer
    {
      var last := timer <= 1;
      Poll();
      polls := 1;
      if !last {
        var more := Silence();
        polls := polls + more;
      }
    }

    /** smtp_tcp_err: the connection is gone. */
    method Err()
      requires Valid()
      modifies this
      ensures Valid() && !alive && ClosedOrSame(ErrClosed) && Stepped("")
    {
      if alive { Free(ErrClosed); }
    }

    /** smtp_tcp_connected */
    method Connected(ok: bool)
      requires Valid()
      modifies this
      ensures Valid() && Stepped("") && (if ok then Now() == old(Now()) else ClosedOrSame(ErrConnect))
    {
      if !ok { Close(ErrConnect); }
    }

    /** smtp_dns_found */
    method DnsFound(found: bool, connectOk: bool)
      requires Valid()
      modifies this
      ensures Valid() && Stepped("")
      ensures if found && connectOk then Now() == old(Now())
              else ClosedOrSame(if found then ErrConnect else ErrHostname)
    {
      if found {
        if !connectOk { Close(ErrConnect); }
      } else {
        Close(ErrHostname);
      }
    }
  }

  // ---------------------------------------------------------------------------
  // Whole runs

  datatype Event =
    | PollEv | SentEv | RecvEv(p: Option<string>) | ErrEv | ConnectedEv(ok: bool) | DnsEv(found: bool, connectOk: bool)

  function TextIn(e: Event): string { if e.RecvEv? && e.p.Some? then e.p.value else "" }

  /** All text that came with the first n events. */
  function TextOf(events: seq<Event>, n: nat): string
    requires n <= |events|
  {
    if n == 0 then "" else TextOf(events, n - 1) + TextIn(events[n - 1])
  }

  /** What was written after n events is justified by the text that came with them. */
  ghost predicate Follows(m: Mail, events: seq<Event>, history: seq<string>, n: nat) {
    n < |history| && n <= |events| && Justified(m, TextOf(events, n), history[n], [])
  }

  /** One event. */
  method Dispatch(s: Session, e: Event)
    requires s.Valid()
    modifies s, s.pcb
    ensures s.Valid() && s.Stepped(TextIn(e))
  {
    match e
    case PollEv => s.Poll();
    case SentEv => s.Process(None);
    case RecvEv(p) => s.Recv(p);
    case ErrEv => s.Err();
    case ConnectedEv(ok) => s.Connected(ok);
    case DnsEv(found, connectOk) => s.DnsFound(found, connectOk);
  }

  /** A run after n events. */
  ghost predicate Going(m: Mail, s: Session, events: seq<Event>, history: seq<string>, n: nat)
    reads s, s.pcb
  {
    && s.Valid() && s.mail == m && n <= |events|
    && s.heard <= TextOf(events, n) && (s.alive ==> s.heard == TextOf(events, n))
    && |history| == n + 1 && history[0] == "" && history[n] == s.pcb.written
    && Growing(history)
    && (forall j: nat | j <= n :: Follows(m, events, history, j))
  }

  ghost predicate Growing(history: seq<string>) {
    forall j: nat | j + 1 < |history| :: Kept(history, j)
  }

  /** Nothing written is taken back by event j. */
  ghost predicate Kept(history: seq<string>, j: nat)
    requires j + 1 < |history|
  {
    history[j] <= history[j + 1]
  }

  method Turn(m: Mail, s: Session, events: seq<Event>, history: seq<string>, n: nat) returns (longer: seq<string>)
    requires Going(m, s, events, history, n) && n < |events|
    modifies s, s.pcb
    ensures Going(m, s, events, longer, n + 1)
  {
    Dispatch(s, events[n]);
    assert s.heard <= TextOf(events, n + 1) && history[n] <= s.pcb.written;
    longer := history + [s.pcb.written];
    forall j: nat | j + 1 < |longer| ensures Kept(longer, j) { if j < n { assert Kept(history, j); } }
    JustifiedNow(s, TextOf(events, n + 1));
    OneMore(m, events, history, s.pcb.written);
  }

  /** A session before its first event. */
  method Open(m: Mail, callback: bool, willing: bool, events: seq<Event>) returns (s: Session, history: seq<string>)
    ensures fresh(s) && fresh(s.pcb) && Going(m, s, events, history, 0)
  {
    var c := new Connection(willing);
    s := new Session(m, callback, c);
    history := [c.written];
    JustifiedNow(s, TextOf(events, 0));
    OneMore(m, events, [], c.written);
  }

  method Play(m: Mail, s: Session, events: seq<Event>, first: seq<string>) returns (history: seq<string>)
    requires Going(m, s, events, first, 0)
    modifies s, s.pcb
    ensures Going(m, s, events, history, |events|)
  {
    history := first;
    for i := 0 to |events|
      invariant Going(m, s, events, history, i)
    {
      history := Turn(m, s, events, history, i);
    }
  }

  /** What was written after each event is justified by the text received up to then, and so is
      the result. */
  ghost predicate Proper(m: Mail, events: seq<Event>, history: seq<string>, results: seq<Outcome>) {
    && |history| == |events| + 1 && history[0] == "" && Growing(history)
    && (forall i: nat | i <= |events| :: Follows(m, events, history, i))
    && Justified(m, TextOf(events, |events|), history[|events|], results)
  }

  lemma GoneProperly(m: Mail, s: Session, events: seq<Event>, history: seq<string>)
    requires Going(m, s, events, history, |events|)
    ensures Proper(m, events, history, s.results)
  {
    JustifiedNow(s, TextOf(events, |events|));
  }

  /** Any run of a session, whatever calls come in, in whatever order, is proper. */
  method Converse(m: Mail, callback: bool, willing: bool, events: seq<Event>)
    returns (history: seq<string>, results: seq<Outcome>)
    ensures Proper(m, events, history, results)
  {
    var s, first := Open(m, callback, willing, events);
    history := Play(m, s, events, first);
    GoneProperly(m, s, events, history);
    results := s.results;
  }

  lemma OneMore(m: Mail, events: seq<Event>, history: seq<string>, written: string)
    requires |history| <= |events| && Justified(m, TextOf(events, |history|), written, [])
    requires forall j: nat | j < |history| :: Follows(m, events, history, j)
    ensures forall j: nat | j <= |history| :: Follows(m, events, history + [written], j)
  {
    forall j: nat | j <= |history| ensures Follows(m, events, history + [written], j) {
      StillFollows(m, events, history, written, j);
    }
  }

  lemma StillFollows(m: Mail, events: seq<Event>, history: seq<string>, written: string, j: nat)
    requires j <= |history| <= |events|
    requires if j < |history| then Follows(m, events, history, j) else Justified(m, TextOf(events, j), written, [])
    ensures Follows(m, events, history + [written], j)
  {
    assert (history + [written])[j] == if j < |history| then history[j] else written;
  }

  lemma JustifiedNow(s: Session, text: string)
    requires s.Valid() && s.heard <= text
    ensures Justified(s.mail, text, s.pcb.written, s.results) && Justified(s.mail, text, s.pcb.written, [])
  {
    var v := s.Now();
    SoundIsJustified(s.mail, s.callback, v);
    JustifiedMore(s.mail, s.heard, text[|s.heard|..], v.written, v.results);
    assert s.heard + text[|s.heard|..] == text;
  }

  lemma JustifiedMore(m: Mail, heard: string, more: string, written: string, results: seq<Outcome>)
    requires Justified(m, heard, written, results)
    ensures Justified(m, heard + more, written, results) && Justified(m, heard + more, written, [])
  {
    var a, cues :|
      InStep(Script(m, a), a, heard, written, cues) && (Ok in results ==> written == Text(Script(m, a)));
    InStepMore(Script(m, a), a, heard, more, written, cues);
  }

  /** So a server finds the end of the mail where the client put it, whatever the pieces in which
      the body was written. */
  lemma JustifiedEndsOnce(m: Mail, heard: string, written: string, results: seq<Outcome>) returns (a: Auth)
    requires Justified(m, heard, written, results) && Accepted(m.letter) && m.letter.body != "."
    ensures |Script(m, a)| == 8 + AuthLength(a) && written <= Text(Script(m, a))
    ensures |Text(Script(m, a)[..4 + AuthLength(a)])| <= |written| ==>
              forall i | EndsAt(AfterData(m, a, written), i) :: i == |Content(m.letter)| - 5
  {
    var cues;
    a, cues :|
      InStep(Script(m, a), a, heard, written, cues) && (Ok in results ==> written == Text(Script(m, a)));
    ScriptLength(m, a);
    if |Text(Script(m, a)[..4 + AuthLength(a)])| <= |written| {
      forall i | EndsAt(AfterData(m, a, written), i) ensures i == |Content(m.letter)| - 5 {
        WrittenEndsOnce(m, a, written, i);
      }
    }
  }

  /** A server that answers as expected, over a willing connection, gets the whole script for the
      mechanism it offers, in whatever pieces the replies come and the body goes out, and the caller
      hears of success once. */
  method Deliver(m: Mail, replies: seq<string>, pieces: seq<seq<string>>)
    returns (written: string, results: seq<Outcome>)
    requires Cooperative(m, Null, replies)
    requires AllInPieces(replies, pieces)
    ensures results == [Ok]
    ensures |replies| > 1 && exists a :: Chosen(replies[1], a) && written == Text(Script(m, a))
  {
    var c := new Connection(true);
    var s := new Session(m, true, c);
    s.HearAll(replies, pieces);
    ClosedIsDelivered(m, s.Now());
    written, results := c.written, s.results;
  }

  /** A reply cut in its code is lost: the greeting "220 ready", after its first two digits. */
  method SplitCodeIsLost(m: Mail) returns (written: string)
    ensures Complete("220 ready\r\n") && written == ""
  {
    GreetingRead();
    var c := new Connection(true);
    var s := new Session(m, true, c);
    s.Recv(Some("22"));
    s.Recv(Some("0 ready\r\n"));
    written := c.written;
  }

  lemma GreetingRead()
    ensures Complete("220 ready\r\n") && ResponseCode(Some("22")) == 0 && ResponseCode(Some("0 ready\r\n")) == 0
  {
    var t := "220 ready\r\n";
    CodeRead(t);
    assert MatchAt(t, CRLF, 9);
    forall k: nat | 4 <= k < 9 ensures !MatchAt(t, CRLF, k) { assert t[k..k + 2][0] == t[k] != '\r'; }
    assert LineAt(t, 0, 9);
    assert Lines(t, 0, [9]);
    var u := "0 ready\r\n"[..3];
    assert u == "0 r" && SkipSpace(u) == u && u[1..] == " r";
    assert Digits(" r", 0) == 0;
  }

  lemma ClosedIsDelivered(m: Mail, v: View)
    requires Sound(m, true, v) && v.state.Closed?
    ensures v.results == [Ok] && v.written == Text(Script(m, v.auth))
  {
    ScriptLength(m, v.auth);
    ToldAll(Script(m, v.auth), m.letter.body, v);
    assert v.results[0] in v.results;
  }
}
