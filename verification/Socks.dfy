/** The SOCKS5 negotiation of the proxy (socks_cmd_cb in src/ocproxy.c), which reads into a
    buffer, piece by piece, until it has seen enough. */
module Socks {
  import opened Basics

  datatype Phase = Auth | Cmd

  /** What a read leads to. Resolve carries the port only if its bytes had arrived. */
  datatype Outcome =
    | More | Disconnect | Method | Refuse(code: nat)
    | Connect(addr: seq<Byte>, port: nat) | Resolve(name: seq<Byte>, arrived: Option<nat>)

  function Num(b: Byte): nat { b }

  /** ntohs of two bytes */
  function Port(hi: Byte, lo: Byte): nat { Num(hi) * 256 + Num(lo) }

  const SOCKBUF_LEN: nat := 2048

  /** What the bytes received so far in a phase amount to. */
  function Judge(phase: Phase, got: seq<Byte>): Outcome
    requires |got| > 0
  {
    if got[0] != 5 then Disconnect
    else if phase.Auth? then
      if |got| <= 1 || |got| <= Num(got[1]) + 1 then More else Method
    else if |got| <= 3 then More
    else if got[1] != 1 then Refuse(7)
    else if got[3] == 1 then
      if |got| < 10 then More else Connect(got[4..8], Port(got[8], got[9]))
    else if got[3] == 3 then
      if |got| <= 4 then More
      else
        var n := Num(got[4]);
        if |got| <= 4 + n then More
        else Resolve(got[5..5 + n], if |got| < 7 + n then None else Some(Port(got[5 + n], got[6 + n])))
    else Refuse(8)
  }

  // ---------------------------------------------------------------------------
  // Reads of any size

  /** The first outcome of these reads that is not to read more. */
  function Feed(phase: Phase, got: seq<Byte>, chunks: seq<seq<Byte>>): Outcome
    requires AllNonEmpty(chunks)
    decreases |chunks|
  {
    if |chunks| == 0 then More
    else
      var o := Judge(phase, got + chunks[0]);
      if o.More? then Feed(phase, got + chunks[0], chunks[1..]) else o
  }

  /** The bytes received by then. */
  function Settling(phase: Phase, got: seq<Byte>, chunks: seq<seq<Byte>>): seq<Byte>
    requires AllNonEmpty(chunks)
    decreases |chunks|
  {
    if |chunks| == 0 then got
    else if Judge(phase, got + chunks[0]).More? then Settling(phase, got + chunks[0], chunks[1..])
    else got + chunks[0]
  }

  /** Once it is settled, more bytes change nothing, but for the port of a name. */
  lemma Settled(phase: Phase, got: seq<Byte>, more: seq<Byte>)
    requires |got| > 0 && !Judge(phase, got).More?
    ensures Judge(phase, got).Resolve? <==> Judge(phase, got + more).Resolve?
    ensures !Judge(phase, got).Resolve? ==> Judge(phase, got + more) == Judge(phase, got)
  {
    var all := got + more;
    assert forall k | 0 <= k < |got| :: all[k] == got[k];
    if |got| >= 8 { assert all[4..8] == got[4..8]; }
  }

  /** However the bytes are split into reads, the outcome is that of all of them at once, unless
      they ask for a name. */
  lemma {:induction false} SplitIndependent(phase: Phase, got: seq<Byte>, chunks: seq<seq<Byte>>)
    requires AllNonEmpty(chunks) && |chunks| > 0
    requires |got + Concat(chunks)| > 0 && !Judge(phase, got + Concat(chunks)).Resolve?
    ensures Feed(phase, got, chunks) == Judge(phase, got + Concat(chunks))
    decreases |chunks|
  {
    var g, rest := got + chunks[0], Concat(chunks[1..]);
    assert got + Concat(chunks) == g + rest;
    if !Judge(phase, g).More? {
      Settled(phase, g, rest);
    } else if |chunks| == 1 {
      assert g + rest == g;
    } else {
      SplitIndependent(phase, g, chunks[1..]);
    }
  }

  /** Whether it is for a name does not depend on the split either. */
  lemma {:induction false} NameIndependent(phase: Phase, got: seq<Byte>, chunks: seq<seq<Byte>>)
    requires AllNonEmpty(chunks) && |chunks| > 0 && |got + Concat(chunks)| > 0
    ensures Feed(phase, got, chunks).Resolve? <==> Judge(phase, got + Concat(chunks)).Resolve?
    decreases |chunks|
  {
    var g, rest := got + chunks[0], Concat(chunks[1..]);
    assert got + Concat(chunks) == g + rest;
    if !Judge(phase, g).More? {
      Settled(phase, g, rest);
    } else if |chunks| == 1 {
      assert g + rest == g;
    } else {
      NameIndependent(phase, g, chunks[1..]);
    }
  }

  /** What a request comes to, in reads of any size: who is not speaking version 5 is disconnected;
      commands other than CONNECT and other kinds of addresses are refused with the codes of
      section 6 of RFC 1928; an address is connected to and a name looked up once it is there. */
  lemma RequestOutcome(chunks: seq<seq<Byte>>)
    requires AllNonEmpty(chunks) && |chunks| > 0
    ensures |Concat(chunks)| > 0
    ensures var (b, o) := (Concat(chunks), Feed(Cmd, [], chunks));
      && (o.Disconnect? <==> b[0] != 5)
      && (o == Refuse(7) <==> |b| >= 4 && b[0] == 5 && b[1] != 1)
      && (o == Refuse(8) <==> |b| >= 4 && b[0] == 5 && b[1] == 1 && b[3] != 1 && b[3] != 3)
      && (o.Connect? <==> |b| >= 10 && b[0] == 5 && b[1] == 1 && b[3] == 1)
      && (o.Resolve? <==> |b| >= 5 && b[0] == 5 && b[1] == 1 && b[3] == 3 && |b| >= 5 + b[4] as int)
      && !o.Method?
  {
    var b := Concat(chunks);
    assert b == chunks[0] + Concat(chunks[1..]);
    assert [] + b == b;
    NameIndependent(Cmd, [], chunks);
    if !Judge(Cmd, b).Resolve? { SplitIndependent(Cmd, [], chunks); }
  }

  /** And a greeting: it is answered once all its methods are there. */
  lemma GreetingOutcome(chunks: seq<seq<Byte>>)
    requires AllNonEmpty(chunks) && |chunks| > 0
    ensures |Concat(chunks)| > 0
    ensures var (b, o) := (Concat(chunks), Feed(Auth, [], chunks));
      && (o.Disconnect? <==> b[0] != 5)
      && (o.Method? <==> |b| >= 2 && b[0] == 5 && |b| >= 2 + b[1] as int)
      && (o.More? || o.Disconnect? || o.Method?)
  {
    var b := Concat(chunks);
    assert b == chunks[0] + Concat(chunks[1..]);
    assert [] + b == b;
    SplitIndependent(Auth, [], chunks);
  }

  /** Some read ends with n bytes received. */
  ghost predicate Boundary(got: nat, chunks: seq<seq<Byte>>, n: nat)
    decreases |chunks|
  {
    |chunks| > 0 && (got + |chunks[0]| == n || Boundary(got + |chunks[0]|, chunks[1..], n))
  }

  /** A request for a name of n bytes, and nothing else. */
  predicate NameRequest(r: seq<Byte>) {
    |r| >= 5 && |r| == 7 + Num(r[4]) && r[0] == 5 && r[1] == 1 && r[3] == 3
  }

  /** The buffer before a phase, with what the phase has received written over it. */
  function Over(buf: seq<Byte>, got: seq<Byte>): seq<Byte>
    requires |got| <= |buf|
  {
    got + buf[|got|..]
  }

  /** The port the code takes for a name of n bytes: it looks where the port should be, whether or
      not those bytes have arrived. */
  function PortUsed(buf: seq<Byte>, got: seq<Byte>, n: nat): nat
    requires |got| <= |buf| && 6 + n < |buf|
  {
    Port(Over(buf, got)[5 + n], Over(buf, got)[6 + n])
  }

  /** The bytes of the port that a read ending after the name has not brought stand in the buffer
      already. */
  ghost predicate Helped(buf: seq<Byte>, chunks: seq<seq<Byte>>, r: seq<Byte>)
    requires NameRequest(r) && |r| <= |buf|
  {
    var n := Num(r[4]);
    && (Boundary(0, chunks, 5 + n) ==> buf[5 + n] == r[5 + n])
    && (Boundary(0, chunks, 5 + n) || Boundary(0, chunks, 6 + n) ==> buf[6 + n] == r[6 + n])
  }

  /** A request for a name gets its own port exactly when no read ends after the name and before
      the second byte of the port, or the buffer happens to hold what is missing. */
  lemma NamePortIff(buf: seq<Byte>, chunks: seq<seq<Byte>>)
    requires AllNonEmpty(chunks) && NameRequest(Concat(chunks)) && |buf| == SOCKBUF_LEN
    ensures var (r, g) := (Concat(chunks), Settling(Cmd, [], chunks));
      var n := Num(r[4]);
      && g <= r && 5 + n <= |g| && Feed(Cmd, [], chunks) == Judge(Cmd, g) && Judge(Cmd, g).Resolve?
      && Judge(Cmd, g).name == r[5..5 + n]
      && (PortUsed(buf, g, n) == Port(r[5 + n], r[6 + n]) <==> Helped(buf, chunks, r))
  {
    var r, g := Concat(chunks), Settling(Cmd, [], chunks);
    assert [] + r == r;
    NameSettles([], chunks);
    PortOfPrefix(buf, r, g);
  }

  lemma PortOfPrefix(buf: seq<Byte>, r: seq<Byte>, g: seq<Byte>)
    requires NameRequest(r) && |r| <= |buf| && g <= r && 5 + Num(r[4]) <= |g|
    ensures var n := Num(r[4]);
      && Judge(Cmd, g).Resolve? && Judge(Cmd, g).name == r[5..5 + n]
      && (PortUsed(buf, g, n) == Port(r[5 + n], r[6 + n]) <==>
            (|g| < 6 + n ==> buf[5 + n] == r[5 + n]) && (|g| < 7 + n ==> buf[6 + n] == r[6 + n]))
  {
    var n := Num(r[4]);
    assert forall k | 0 <= k < |g| :: g[k] == r[k];
    assert g[5..5 + n] == r[5..5 + n];
    var o := Over(buf, g);
    assert o[5 + n] == if |g| < 6 + n then buf[5 + n] else r[5 + n];
    assert o[6 + n] == if |g| < 7 + n then buf[6 + n] else r[6 + n];
    SamePort(o[5 + n], o[6 + n], r[5 + n], r[6 + n]);
  }

  lemma SamePort(a: Byte, b: Byte, c: Byte, d: Byte)
    ensures Port(a, b) == Port(c, d) <==> a == c && b == d
  {
  }

  lemma PrefixJudged(r: seq<Byte>, g: seq<Byte>)
    requires NameRequest(r) && g <= r && |g| > 0
    ensures Judge(Cmd, g).More? <==> |g| < 5 + Num(r[4])
  {
    assert forall k | 0 <= k < |g| :: g[k] == r[k];
  }

  /** Reading ends with the first read that has all of the name. */
  lemma {:induction false} NameSettles(got: seq<Byte>, chunks: seq<seq<Byte>>)
    requires AllNonEmpty(chunks) && NameRequest(got + Concat(chunks))
    requires got != [] ==> Judge(Cmd, got).More?
    ensures var (r, g) := (got + Concat(chunks), Settling(Cmd, got, chunks));
      var n := Num(r[4]);
      && g <= r && 5 + n <= |g| && Feed(Cmd, got, chunks) == Judge(Cmd, g)
      && (|g| == 5 + n <==> Boundary(|got|, chunks, 5 + n))
      && (|g| == 6 + n <==> Boundary(|got|, chunks, 6 + n) && !Boundary(|got|, chunks, 5 + n))
    decreases |chunks|
  {
    var r := got + Concat(chunks);
    assert |chunks| == 0 ==> r == got;
    if |chunks| > 0 {
      var g, rest := got + chunks[0], Concat(chunks[1..]);
      assert r == g + rest;
      var n := Num(r[4]);
      PrefixJudged(r, g);
      if |g| < 5 + n {
        NameSettles(g, chunks[1..]);
      } else {
        NoBoundaryBefore(|g|, chunks[1..], 5 + n);
        if |g| >= 6 + n { NoBoundaryBefore(|g|, chunks[1..], 6 + n); }
      }
    }
  }

  /** What a greeting leaves in the buffer of a new slot. */
  function Left(greeting: seq<Byte>): seq<Byte>
    requires |greeting| <= SOCKBUF_LEN
  {
    greeting + seq(SOCKBUF_LEN - |greeting|, _ => 0)
  }

  /** A request for the name "a", then, in a read of its own, its port 443: the code takes for a
      port what the greeting left behind, 0 or, as it may happen, 443. */
  lemma SplitLosesPort(greeting: seq<Byte>, name: seq<Byte>, port: seq<Byte>)
    requires name == [5, 1, 0, 3, 1, 97] && port == [1, 187] && |greeting| <= SOCKBUF_LEN
    ensures NameRequest(name + port) && Settling(Cmd, [], [name, port]) == name
    ensures greeting == [5, 1, 0] ==> PortUsed(Left(greeting), name, 1) == 0
    ensures greeting == [5, 6, 0, 0, 0, 0, 1, 187] ==> PortUsed(Left(greeting), name, 1) == 443
  {
    assert [] + [name, port][0] == name;
    var buf := Left(greeting);
    assert Over(buf, name)[6] == buf[6] && Over(buf, name)[7] == buf[7];
  }

  lemma {:induction false} NoBoundaryBefore(got: nat, chunks: seq<seq<Byte>>, n: nat)
    requires AllNonEmpty(chunks) && n <= got
    ensures !Boundary(got, chunks, n)
    decreases |chunks|
  {
    if |chunks| > 0 { NoBoundaryBefore(got + |chunks[0]|, chunks[1..], n); }
  }

  // ---------------------------------------------------------------------------
  // The slot

  class Client {
    var phase: Phase
    const sockbuf: array<Byte>
    var sockPos: nat
    var rport: nat
    /** Method replies written. */
    var replies: nat

    ghost predicate Valid()
      reads this
    {
      sockbuf.Length == SOCKBUF_LEN && sockPos <= SOCKBUF_LEN
    }

    ghost function Got(): seq<Byte>
      requires Valid()
      reads this, sockbuf
    {
      sockbuf[..sockPos]
    }

    constructor ()
      ensures Valid() && fresh(sockbuf) && phase.Auth? && Got() == [] && replies == 0
      ensures sockbuf[..] == Left([])
    {
      phase, sockPos, rport, replies := Auth, 0, 0, 0;
      sockbuf := new Byte[SOCKBUF_LEN](_ => 0);
    }

    /** read() into the rest of the buffer. */
    method Read(chunk: seq<Byte>)
      requires Valid() && sockPos + |chunk| <= SOCKBUF_LEN
      modifies `sockPos, sockbuf
      ensures Valid() && Got() == old(Got()) + chunk && sockPos == old(sockPos) + |chunk|
      ensures sockbuf[..] == Over(old(sockbuf[..]), old(Got()) + chunk)
    {
      ghost var before, rest := Got(), sockbuf[sockPos + |chunk|..];
      for k := 0 to |chunk|
        invariant Valid() && sockPos == old(sockPos)
        invariant sockbuf[..sockPos] == before
        invariant sockbuf[sockPos..sockPos + k] == chunk[..k]
        invariant sockbuf[sockPos + |chunk|..] == rest
      {
        sockbuf[sockPos + k] := chunk[k];
      }
      assert sockbuf[..sockPos + |chunk|] == sockbuf[..sockPos] + sockbuf[sockPos..sockPos + |chunk|];
      sockPos := sockPos + |chunk|;
      assert sockbuf[..] == sockbuf[..sockPos] + sockbuf[sockPos..];
    }

    /** socks_cmd_cb on what read() returned; nothing means that the client has gone. The method
        reply may fail to be written. */
    method CmdCb(chunk: seq<Byte>, replyOk: bool) returns (o: Outcome)
      requires Valid() && sockPos + |chunk| <= SOCKBUF_LEN
      modifies this, sockbuf
      ensures Valid()
      ensures chunk == [] ==> o.Disconnect?
      ensures chunk != [] ==>
        var j := Judge(old(phase), old(Got()) + chunk);
        && o == (if j.Method? && !replyOk then Disconnect else j)
        && (o.Method? ==> phase.Cmd? && Got() == [] && replies == old(replies) + 1)
        && (!o.Method? ==> phase == old(phase) && Got() == old(Got()) + chunk && replies == old(replies))
        && sockbuf[..] == Over(old(sockbuf[..]), old(Got()) + chunk)
        && (o.Connect? ==> rport == o.port)
        && (o.Resolve? ==> rport == PortUsed(old(sockbuf[..]), old(Got()) + chunk, |o.name|))
    {
      if |chunk| == 0 { return Disconnect; }
      Read(chunk);
      if sockbuf[0] != 5 { return Disconnect; }
      if phase.Auth? {
        if sockPos <= 1 { return More; }
        if sockPos <= Num(sockbuf[1]) + 1 { return More; }
        if !replyOk { return Disconnect; }
        replies := replies + 1;
        phase := Cmd;
        sockPos := 0;
        return Method;
      }
      if sockPos <= 3 { return More; }
      if sockbuf[1] != 1 { return Refuse(7); }
      if sockbuf[3] == 1 {
        if sockPos < 10 { return More; }
        rport := Port(sockbuf[8], sockbuf[9]);
        assert sockbuf[..sockPos][4..8] == sockbuf[4..8];
        return Connect(sockbuf[4..8], rport);
      }
      if sockbuf[3] == 3 {
        o := Name();
        return;
      }
      return Refuse(8);
    }

    /** The part for names: it does not wait for the port. */
    method Name() returns (o: Outcome)
      requires Valid() && sockPos >= 4 && sockbuf[0] == 5 && sockbuf[1] == 1 && sockbuf[3] == 3
      modifies `rport
      ensures o == Judge(Cmd, Got())
      ensures o.Resolve? ==> |o.name| < 256 && rport == Port(sockbuf[5 + |o.name|], sockbuf[6 + |o.name|])
    {
      if sockPos <= 4 { return More; }
      var n := Num(sockbuf[4]);
      if sockPos <= 4 + n { return More; }
      rport := Port(sockbuf[5 + n], sockbuf[6 + n]);
      assert sockbuf[..sockPos][5..5 + n] == sockbuf[5..5 + n];
      return Resolve(sockbuf[5..5 + n], if sockPos < 7 + n then None else Some(rport));
    }
  }

  // ---------------------------------------------------------------------------
  // A whole negotiation

  /** The version, how many methods, and the methods. */
  predicate Greeting(g: seq<Byte>) { |g| >= 2 && g[0] == 5 && |g| == 2 + Num(g[1]) }

  /** CONNECT to an IPv4 address and port. */
  predicate Ipv4Request(r: seq<Byte>) { |r| == 10 && r[0] == 5 && r[1] == 1 && r[3] == 1 }

  /** Reads until the phase is settled. */
  method ReadPhase(c: Client, chunks: seq<seq<Byte>>) returns (o: Outcome)
    requires c.Valid() && AllNonEmpty(chunks) && |c.Got()| + |Concat(chunks)| <= SOCKBUF_LEN
    modifies c, c.sockbuf
    ensures c.Valid() && o == Feed(old(c.phase), old(c.Got()), chunks)
    ensures o.Method? ==> c.phase.Cmd? && c.Got() == [] && c.replies == old(c.replies) + 1
    ensures !o.Method? ==> c.phase == old(c.phase) && c.replies == old(c.replies)
    ensures o.Connect? ==> c.rport == o.port
    ensures var (g, buf) := (Settling(old(c.phase), old(c.Got()), chunks), old(c.sockbuf[..]));
      && old(|c.Got()|) <= |g| <= SOCKBUF_LEN && c.sockbuf[..] == Over(buf, g)
      && (o.Resolve? ==> |o.name| < 256 && c.rport == PortUsed(buf, g, |o.name|))
    decreases |chunks|
  {
    if |chunks| == 0 { return More; }
    ghost var phase, buf, g := c.phase, c.sockbuf[..], c.Got() + chunks[0];
    o := c.CmdCb(chunks[0], true);
    if o.More? {
      o := ReadPhase(c, chunks[1..]);
      OverTwice(buf, g, Settling(phase, g, chunks[1..]));
    }
  }

  lemma OverTwice(buf: seq<Byte>, g: seq<Byte>, h: seq<Byte>)
    requires |g| <= |h| <= |buf|
    ensures Over(Over(buf, g), h) == Over(buf, h)
  {
  }

  /** A greeting gets its reply and is left behind in the buffer. */
  method Greet(c: Client, greeting: seq<seq<Byte>>) returns (o: Outcome)
    requires c.Valid() && c.phase.Auth? && c.Got() == [] && c.sockbuf[..] == Left([])
    requires AllNonEmpty(greeting) && Greeting(Concat(greeting))
    modifies c, c.sockbuf
    ensures o == Method && c.Valid() && c.phase.Cmd? && c.Got() == [] && c.replies == old(c.replies) + 1
    ensures c.sockbuf[..] == Left(Concat(greeting))
  {
    assert [] + Concat(greeting) == Concat(greeting);
    SplitIndependent(Auth, [], greeting);
    GreetingSettles([], greeting);
    o := ReadPhase(c, greeting);
    assert Over(Left([]), Concat(greeting)) == Left(Concat(greeting));
  }

  /** A client that waits for the method reply, greets and asks for an IPv4 connection, in reads
      of any size: it gets one method reply, and the address and port it asked for. */
  method Negotiate(greeting: seq<seq<Byte>>, request: seq<seq<Byte>>)
    returns (first: Outcome, second: Outcome, replies: nat, rport: nat)
    requires AllNonEmpty(greeting) && AllNonEmpty(request)
    requires Greeting(Concat(greeting)) && Ipv4Request(Concat(request))
    ensures first == Method && replies == 1
    ensures var r := Concat(request);
            second == Connect(r[4..8], r[8] as int * 256 + r[9] as int) && rport == second.port
  {
    var c := new Client();
    first := Greet(c, greeting);
    assert [] + Concat(request) == Concat(request);
    SplitIndependent(Cmd, [], request);
    second := ReadPhase(c, request);
    replies, rport := c.replies, c.rport;
  }

  /** The same client asks for a name instead: the name is looked up, with its own port exactly
      when the reads, or what the greeting left behind, bring it in time. */
  method NegotiateName(greeting: seq<seq<Byte>>, request: seq<seq<Byte>>)
    returns (first: Outcome, second: Outcome, rport: nat)
    requires AllNonEmpty(greeting) && AllNonEmpty(request)
    requires Greeting(Concat(greeting)) && NameRequest(Concat(request))
    ensures first == Method && second.Resolve?
    ensures var r := Concat(request);
      var n := Num(r[4]);
      && second.name == r[5..5 + n]
      && (rport == Port(r[5 + n], r[6 + n]) <==> Helped(Left(Concat(greeting)), request, r))
  {
    var c := new Client();
    first := Greet(c, greeting);
    second := AskName(c, request);
    rport := c.rport;
  }

  method AskName(c: Client, request: seq<seq<Byte>>) returns (o: Outcome)
    requires c.Valid() && c.phase.Cmd? && c.Got() == [] && AllNonEmpty(request) && NameRequest(Concat(request))
    modifies c, c.sockbuf
    ensures var r := Concat(request);
      var n := Num(r[4]);
      && o.Resolve? && o.name == r[5..5 + n]
      && (c.rport == Port(r[5 + n], r[6 + n]) <==> Helped(old(c.sockbuf[..]), request, r))
  {
    ghost var buf := c.sockbuf[..];
    NamePortIff(buf, request);
    o := ReadPhase(c, request);
  }

  /** A greeting is settled by its last byte. */
  lemma {:induction false} GreetingSettles(got: seq<Byte>, chunks: seq<seq<Byte>>)
    requires AllNonEmpty(chunks) && Greeting(got + Concat(chunks)) && |chunks| > 0
    ensures Settling(Auth, got, chunks) == got + Concat(chunks)
    decreases |chunks|
  {
    var g := got + chunks[0];
    assert got + Concat(chunks) == g + Concat(chunks[1..]);
    assert forall k | 0 <= k < |g| :: g[k] == (got + Concat(chunks))[k];
    if |chunks| == 1 {
      assert g + Concat(chunks[1..]) == g;
    } else {
      assert |Concat(chunks[1..])| > 0;
      GreetingSettles(g, chunks[1..]);
    }
  }
}
