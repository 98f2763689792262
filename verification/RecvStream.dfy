/** Reading a TCP socket (lwip_recvfrom in lwip/src/api/sockets.c): the loop that copies from
    received pbufs into the caller's memory and keeps what is left of the last one. */
module RecvStream {
  import opened Basics

  /** What comes next: the rest of the last pbuf, then the queue. */
  function Pending(lastdata: Option<seq<Byte>>, lastoffset: nat, queue: seq<seq<Byte>>): seq<Byte>
    requires lastdata.Some? ==> lastoffset <= |lastdata.value|
  {
    (if lastdata.Some? then lastdata.value[lastoffset..] else []) + Concat(queue)
  }

  lemma PendingAppend(lastdata: Option<seq<Byte>>, lastoffset: nat, queue: seq<seq<Byte>>, bufs: seq<seq<Byte>>)
    requires lastdata.Some? ==> lastoffset <= |lastdata.value|
    ensures Pending(lastdata, lastoffset, queue + bufs) == Pending(lastdata, lastoffset, queue) + Concat(bufs)
  {
    ConcatAppend(queue, bufs);
  }

  /** n more pbufs at the end of the queue are n more of the stream. */
  lemma StillInOrder(consumed: seq<Byte>, lastdata: Option<seq<Byte>>, lastoffset: nat, queue: seq<seq<Byte>>,
                     stream: seq<seq<Byte>>, k: nat, n: nat)
    requires (lastdata.Some? ==> lastoffset <= |lastdata.value|) && k + n <= |stream|
    requires consumed + Pending(lastdata, lastoffset, queue) == Concat(stream[..k])
    ensures consumed + Pending(lastdata, lastoffset, queue + stream[k..k + n]) == Concat(stream[..k + n])
    ensures AllNonEmpty(queue) && AllNonEmpty(stream) ==> AllNonEmpty(queue + stream[k..k + n])
  {
    var bufs := stream[k..k + n];
    PendingAppend(lastdata, lastoffset, queue, bufs);
    Assoc(consumed, Pending(lastdata, lastoffset, queue), Concat(bufs));
    assert stream[..k] + bufs == stream[..k + n];
    ConcatAppend(stream[..k], bufs);
    StillNonEmpty(queue, stream, k, n);
  }

  lemma StillNonEmpty(queue: seq<seq<Byte>>, stream: seq<seq<Byte>>, k: nat, n: nat)
    requires k + n <= |stream|
    ensures AllNonEmpty(queue) && AllNonEmpty(stream) ==> AllNonEmpty(queue + stream[k..k + n])
  {
    var bufs := stream[k..k + n];
    assert forall i | 0 <= i < n :: bufs[i] == stream[k + i];
    assert forall i | 0 <= i < |queue + bufs| ::
        (queue + bufs)[i] == if i < |queue| then queue[i] else bufs[i - |queue|];
  }

  /** As many bytes as there are and fit. */
  function Fits(len: nat, left: nat): (n: nat)
    ensures n <= len && n <= left && (n == len || n == left)
  {
    if len > left then left else len
  }

  class TcpSocket {
    /** Every pbuf the connection ever receives, and how many have arrived. */
    const stream: seq<seq<Byte>>
    var arrived: nat
    /** netconn_recv_tcp_pbuf fails only when nothing is left to receive. */
    const reliable: bool
    var lastdata: Option<seq<Byte>>
    var lastoffset: nat
    /** Arrived pbufs not yet handed out by the netconn. */
    var queue: seq<seq<Byte>>
    /** The total passed to netconn_recved. */
    var recved: nat
    /** What calls without MSG_PEEK have returned, and how much calls with it have. */
    ghost var consumed: seq<Byte>
    ghost var peeked: nat

    /** The socket's own fields make sense. */
    ghost predicate Kept()
      reads this
    {
      && (lastdata.Some? ==> lastoffset < |lastdata.value|)
      && (lastdata.None? ==> lastoffset == 0)
      && AllNonEmpty(queue)
      && arrived <= |stream| && AllNonEmpty(stream)
    }

    ghost function Next(): seq<Byte>
      requires Kept()
      reads this
    {
      Pending(lastdata, lastoffset, queue)
    }

    /** What was returned and what is still to come are what has arrived of the stream. */
    ghost predicate InOrder()
      reads this
    {
      Kept() && consumed + Next() == Concat(stream[..arrived])
    }

    ghost predicate Valid()
      reads this
    {
      InOrder() && recved == |consumed| + peeked
    }

    /** Something is left to return. */
    ghost predicate More()
      reads this
    {
      lastdata.Some? || queue != [] || arrived < |stream|
    }

    constructor (st: seq<seq<Byte>>, rel: bool)
      requires AllNonEmpty(st)
      ensures Valid() && stream == st && reliable == rel
      ensures arrived == 0 && consumed == [] && peeked == 0 && recved == 0
    {
      stream, arrived, reliable := st, 0, rel;
      lastdata, lastoffset, queue, recved := None, 0, [], 0;
      consumed, peeked := [], 0;
    }

    /** n more pbufs arrive. */
    method Arrive(n: nat)
      requires InOrder() && arrived + n <= |stream|
      modifies `queue, `arrived
      ensures InOrder() && arrived == old(arrived) + n && (n > 0 ==> queue != [])
      ensures queue == old(queue) + stream[old(arrived)..arrived]
    {
      StillInOrder(consumed, lastdata, lastoffset, queue, stream, arrived, n);
      queue := queue + stream[arrived..arrived + n];
      arrived := arrived + n;
    }

    /** netconn_recv_tcp_pbuf: while it waits more may arrive; it gives the next pbuf or fails. */
    method Fetch() returns (buf: Option<seq<Byte>>)
      requires InOrder() && lastdata.None?
      modifies `queue, `arrived, `lastdata
      ensures InOrder() && lastdata == buf && old(arrived) <= arrived
      ensures reliable && old(More()) ==> buf.Some?
    {
      var n: nat, fails: bool := *, *;
      if reliable && n == 0 && queue == [] { n := 1; }
      if arrived + n <= |stream| { Arrive(n); } else { Arrive(|stream| - arrived); }
      if (fails && !reliable) || queue == [] { return None; }
      buf := Some(queue[0]);
      queue := queue[1..];
      lastdata := buf;
    }

    /** Copies n bytes of the last pbuf to mem + off. */
    method CopyPartial(mem: array<Byte>, off: nat, n: nat)
      requires Kept() && lastdata.Some? && lastoffset + n <= |lastdata.value| && off + n <= mem.Length
      modifies mem
      ensures mem[..off] == old(mem[..off]) && mem[off + n..] == old(mem[off + n..])
      ensures mem[off..off + n] == lastdata.value[lastoffset..lastoffset + n]
    {
      for k := 0 to n
        invariant mem[..off] == old(mem[..off]) && mem[off + n..] == old(mem[off + n..])
        invariant mem[off..off + k] == lastdata.value[lastoffset..lastoffset + k]
      {
        mem[off + k] := lastdata.value[lastoffset + k];
      }
    }

    /** The end of a round without MSG_PEEK: what was copied is gone from the socket. */
    method Advance(n: nat)
      requires InOrder() && lastdata.Some? && lastoffset + n <= |lastdata.value|
      modifies `lastdata, `lastoffset, `consumed
      ensures InOrder() && consumed == old(consumed) + old(lastdata.value[lastoffset..lastoffset + n])
      ensures lastdata.Some? <==> old(lastoffset) + n < |old(lastdata).value|
    {
      ghost var d, piece := lastdata.value, lastdata.value[lastoffset..lastoffset + n];
      assert d[lastoffset..] == piece + d[lastoffset + n..];
      if |lastdata.value| - lastoffset - n > 0 {
        lastoffset := lastoffset + n;
      } else {
        lastdata := None;
        lastoffset := 0;
      }
      consumed := consumed + piece;
    }

    /** Leaves with the bytes copied, which netconn_recved is told of, or with none. */
    method Return(n: nat, ghost peek: bool, otherwise: int) returns (ret: int)
      modifies `recved, `peeked
      ensures recved == old(recved) + n && peeked == old(peeked) + if peek then n else 0
      ensures ret == if n > 0 then n else otherwise
    {
      if n == 0 { return otherwise; }
      recved := recved + n;
      peeked := peeked + if peek then n else 0;
      ret := n;
    }

    /** Copies what fits of the last pbuf and moves on. */
    method Take(mem: array<Byte>, len: nat, off: nat, peek: bool) returns (n: nat)
      requires InOrder() && lastdata.Some? && off + len <= mem.Length
      modifies `lastdata, `lastoffset, `consumed, mem
      ensures InOrder() && (len > 0 ==> n > 0)
      ensures n == Fits(len, old(|lastdata.value| - lastoffset))
      ensures mem[..off] == old(mem[..off]) && mem[off + n..] == old(mem[off + n..])
      ensures if peek then consumed == old(consumed) && mem[off..off + n] <= Next()
              else consumed == old(consumed) + mem[off..off + n]
    {
      var buflen := |lastdata.value| - lastoffset;
      n := if len > buflen then buflen else len;
      CopyPartial(mem, off, n);
      if peek {
        assert lastdata.value[lastoffset..][..n] == lastdata.value[lastoffset..lastoffset + n];
      } else {
        Advance(n);
      }
    }

    /** One round of the loop: makes sure of a pbuf, then takes from it. */
    method Round(mem: array<Byte>, len: nat, off: nat, peek: bool) returns (ok: bool, n: nat)
      requires InOrder() && off + len <= mem.Length
      modifies `lastdata, `lastoffset, `consumed, `queue, `arrived, mem
      ensures InOrder() && n <= len && old(arrived) <= arrived && (ok && len > 0 ==> n > 0)
      ensures reliable && old(More()) ==> ok
      ensures old(lastdata).Some? ==> ok && n == Fits(len, old(|lastdata.value| - lastoffset))
      ensures mem[..off] == old(mem[..off]) && mem[off + n..] == old(mem[off + n..])
      ensures !ok ==> n == 0 && consumed == old(consumed) && old(lastdata).None? && lastdata.None?
      ensures ok && !peek ==> consumed == old(consumed) + mem[off..off + n]
      ensures ok && peek ==> consumed == old(consumed) && mem[off..off + n] <= Next()
    {
      if lastdata.None? {
        var buf := Fetch();
        if buf.None? { return false, 0; }
      }
      n := Take(mem, len, off, peek);
      ok := true;
    }

    /** The bytes copied so far were consumed, or they come next. */
    ghost predicate Copied(peek: bool, was: seq<Byte>, data: seq<Byte>)
      requires Kept()
      reads this
    {
      if peek then consumed == was && data <= Next() else consumed == was + data
    }

    /** The loop of lwip_recvfrom. Whether data is known to wait (rcvevent), the PUSH flag and
        the kind of an error are arbitrary. With nothing copied the call returns otherwise. */
    method Loop(mem: array<Byte>, length: nat, peek: bool, dontwait: bool) returns (off: nat, otherwise: int)
      requires InOrder() && length <= mem.Length
      modifies `lastdata, `lastoffset, `consumed, `queue, `arrived, mem
      ensures InOrder() && off <= length && -1 <= otherwise <= 0
      ensures old(arrived) <= arrived
      ensures mem[off..] == old(mem[..])[off..]
      ensures Copied(peek, old(consumed), mem[..off])
      ensures old(lastdata).Some? ==> off >= Fits(length, old(|lastdata.value| - lastoffset))
      ensures reliable && !dontwait && length > 0 && old(More()) ==> off > 0
    {
      ghost var before, was := mem[..], consumed;
      var len: nat, done := length, false;
      off, otherwise := 0, 0;
      while !done
        invariant InOrder() && off + len == length <= mem.Length && old(arrived) <= arrived
        invariant mem[off..] == before[off..]
        invariant Copied(peek, was, mem[..off])
        invariant peek && !done ==> off == 0
        invariant old(lastdata).Some? ==>
                    || off >= Fits(length, old(|lastdata.value| - lastoffset))
                    || (!done && off == 0 && lastdata == old(lastdata) && lastoffset == old(lastoffset))
        invariant reliable && length > 0 && old(More()) ==> off > 0 || (!done && More())
        decreases len + if done then 0 else 1
      {
        var known: bool, push: bool, closed: bool := *, *, *;
        if lastdata.None? && dontwait && !known { return off, -1; }
        var ok, n := Round(mem, len, off, peek);
        if !ok { return off, if closed then 0 else -1; }
        assert mem[..off + n] == mem[..off] + mem[off..off + n];
        assert before[off..][n..] == before[off + n..];
        off := off + n;
        len := len - n;
        if len <= 0 || push || !known || peek { done := true; }
      }
    }

    /** lwip_recvfrom */
    method RecvFrom(mem: array<Byte>, length: nat, peek: bool, dontwait: bool) returns (ret: int)
      requires Valid() && length <= mem.Length
      modifies this, mem
      ensures Valid() && -1 <= ret <= length
      ensures old(arrived) <= arrived
      ensures var n := if ret < 0 then 0 else ret;
        && mem[n..] == old(mem[..])[n..]
        && Copied(peek, old(consumed), mem[..n])
        && peeked == old(peeked) + if peek then n else 0
      ensures old(lastdata).Some? && length > 0 ==> ret >= Fits(length, old(|lastdata.value| - lastoffset)) > 0
      ensures reliable && !dontwait && length > 0 && old(More()) ==> ret > 0
    {
      var off, otherwise := Loop(mem, length, peek, dontwait);
      ret := Return(off, peek, otherwise);
    }
  }

  // ---------------------------------------------------------------------------
  // Any sequence of calls

  datatype Call = Call(length: nat, peek: bool, dontwait: bool)

  /** How far in the stream the first k calls have read: those with MSG_PEEK do not count. */
  function Position(calls: seq<Call>, outs: seq<seq<Byte>>, k: nat): nat
    requires k <= |calls| && k <= |outs|
  {
    if k == 0 then 0 else Position(calls, outs, k - 1) + if calls[k - 1].peek then 0 else |outs[k - 1]|
  }

  /** How many bytes the first k calls returned. */
  function Total(outs: seq<seq<Byte>>, k: nat): nat
    requires k <= |outs|
  {
    if k == 0 then 0 else Total(outs, k - 1) + |outs[k - 1]|
  }

  /** Call k returned bytes of the stream from where the calls before it had come to, at most as
      many as asked for; and some, if it could wait, any were left and nothing failed. */
  ghost predicate Exact(stream: seq<Byte>, calls: seq<Call>, outs: seq<seq<Byte>>, k: nat, reliable: bool)
    requires k < |calls| && k < |outs|
  {
    var p, n := Position(calls, outs, k), |outs[k]|;
    && n <= calls[k].length
    && p + n <= |stream| && outs[k] == stream[p..p + n]
    && (reliable && !calls[k].dontwait && calls[k].length > 0 && p < |stream| ==> n > 0)
  }

  lemma {:induction false} PositionKept(calls: seq<Call>, outs: seq<seq<Byte>>, out: seq<Byte>, k: nat)
    requires k <= |outs| <= |calls|
    ensures Position(calls, outs + [out], k) == Position(calls, outs, k)
    ensures Total(outs + [out], k) == Total(outs, k)
  {
    if k > 0 { PositionKept(calls, outs, out, k - 1); }
  }

  /** So what a peek shows and what the next call returns start alike. */
  lemma PeekThenRead(stream: seq<Byte>, calls: seq<Call>, outs: seq<seq<Byte>>, k: nat, reliable: bool)
    requires k + 1 < |calls| && k + 1 < |outs| && calls[k].peek
    requires Exact(stream, calls, outs, k, reliable) && Exact(stream, calls, outs, k + 1, reliable)
    ensures outs[k] <= outs[k + 1] || outs[k + 1] <= outs[k]
  {
    var p, m, n := Position(calls, outs, k), |outs[k]|, |outs[k + 1]|;
    assert Position(calls, outs, k + 1) == p;
    if m <= n {
      assert stream[p..p + n][..m] == stream[p..p + m];
    } else {
      assert stream[p..p + m][..n] == stream[p..p + n];
    }
  }

  /** What a call returned is at its place in the whole stream, and it returned something where it
      should. */
  lemma AtItsPlace(before: seq<Byte>, out: seq<Byte>, next: seq<Byte>, stream: seq<seq<Byte>>, n: nat)
    requires n <= |stream| && out <= next && before + next == Concat(stream[..n])
    ensures |before| + |out| <= |Concat(stream)|
    ensures out == Concat(stream)[|before|..|before| + |out|]
  {
    ConcatAppend(stream[..n], stream[n..]);
    assert stream[..n] + stream[n..] == stream;
    assert (before + next)[|before|..|before| + |out|] == out;
  }

  /** Whatever the lengths and flags of the calls, and whenever the pbufs arrive: every call
      returns the bytes of the stream from where the calls before it had come to, and
      netconn_recved is told of all bytes returned. */
  method ReadStream(stream: seq<seq<Byte>>, reliable: bool, calls: seq<Call>)
    returns (outs: seq<seq<Byte>>, recved: nat)
    requires AllNonEmpty(stream)
    ensures |outs| == |calls|
    ensures forall k: nat | k < |calls| :: Exact(Concat(stream), calls, outs, k, reliable)
    ensures recved == Total(outs, |outs|)
    ensures (forall k | 0 <= k < |calls| :: !calls[k].peek) ==> recved == Position(calls, outs, |calls|)
  {
    var s := new TcpSocket(stream, reliable);
    outs := [];
    for i := 0 to |calls|
      invariant s.Valid() && s.stream == stream && s.reliable == reliable && |outs| == i
      invariant |s.consumed| == Position(calls, outs, i) && s.recved == Total(outs, i)
      invariant forall k: nat | k < i :: Exact(Concat(stream), calls, outs, k, reliable)
      invariant (forall k | 0 <= k < i :: !calls[k].peek) ==> Total(outs, i) == Position(calls, outs, i)
    {
      ghost var before := outs;
      var out := OneCall(s, calls[i]);
      outs := outs + [out];
      PositionKept(calls, before, out, i);
      forall k: nat | k < i ensures Exact(Concat(stream), calls, outs, k, reliable) {
        assert Exact(Concat(stream), calls, before, k, reliable);
        PositionKept(calls, before, out, k);
      }
    }
    recved := s.recved;
  }

  /** One call, with memory of its own. */
  method OneCall(s: TcpSocket, call: Call) returns (out: seq<Byte>)
    requires s.Valid()
    modifies s
    ensures s.Valid() && |out| <= call.length && s.recved == old(s.recved) + |out|
    ensures |s.consumed| == old(|s.consumed|) + if call.peek then 0 else |out|
    ensures var all := Concat(s.stream);
      && old(|s.consumed|) + |out| <= |all|
      && out == all[old(|s.consumed|)..old(|s.consumed|) + |out|]
      && (s.reliable && !call.dontwait && call.length > 0 && old(|s.consumed|) < |all| ==> |out| > 0)
  {
    var mem := new Byte[call.length](_ => 0);
    ghost var before := s.consumed;
    NothingLeft(s);
    var n := s.RecvFrom(mem, call.length, call.peek, call.dontwait);
    out := if n >= 0 then mem[..n] else [];
    if call.peek {
      AtItsPlace(before, out, s.Next(), s.stream, s.arrived);
    } else {
      Assoc(before, out, s.Next());
      AtItsPlace(before, out, out + s.Next(), s.stream, s.arrived);
    }
  }

  lemma NothingLeft(s: TcpSocket)
    requires s.Valid()
    ensures |s.consumed| < |Concat(s.stream)| ==> s.More()
  {
    assert s.arrived == |s.stream| ==> s.stream[..s.arrived] == s.stream;
  }
}
