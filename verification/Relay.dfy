/** The relay from the VPN to a local socket (recv_cb in src/ocproxy.c). A chain of pbufs that
    could not be written whole is refused and presented again, unchanged; done_len remembers how
    much of it is out. */
module Relay {
  import opened Basics

  /** The payloads of a chain of pbufs. */
  type Chain = seq<seq<Byte>>

  datatype Err = Ok | Abrt | WouldBlock

  /** The first j payloads, as one. */
  function FlatTo(chain: Chain, j: nat): seq<Byte>
    requires j <= |chain|
  {
    if j == 0 then [] else FlatTo(chain, j - 1) + chain[j - 1]
  }

  function Flat(chain: Chain): seq<Byte> { FlatTo(chain, |chain|) }

  /** The payloads as one are their concatenation, read from either end. */
  lemma {:induction false} FlatIsConcat(chain: Chain, j: nat)
    requires j <= |chain|
    ensures FlatTo(chain, j) == Concat(chain[..j])
  {
    if j > 0 {
      var last: Chain := [chain[j - 1]];
      FlatIsConcat(chain, j - 1);
      assert chain[..j] == chain[..j - 1] + last;
      ConcatAppend(chain[..j - 1], last);
      assert last[1..] == [] && Concat(last) == last[0] + Concat(last[1..]);
    }
  }

  /** Where pbuf j begins in the chain. */
  function Start(chain: Chain, j: nat): nat
    requires j <= |chain|
  {
    |FlatTo(chain, j)|
  }

  predicate EqualLengths(chain: Chain) { forall j | 0 <= j < |chain| :: |chain[j]| == |chain[0]| }

  lemma {:induction false} FlatGrows(chain: Chain, j: nat, k: nat)
    requires j <= k <= |chain|
    ensures FlatTo(chain, j) <= FlatTo(chain, k)
  {
    if j < k { FlatGrows(chain, j, k - 1); }
  }

  /** Byte o of pbuf k is byte Start(k) + o of the chain, and so are the bytes from there on. */
  lemma PieceOf(chain: Chain, k: nat, o: nat, n: nat)
    requires k < |chain| && o + n <= |chain[k]|
    ensures Start(chain, k) + o + n <= |Flat(chain)|
    ensures Flat(chain)[Start(chain, k) + o..Start(chain, k) + o + n] == chain[k][o..o + n]
  {
    var s := Start(chain, k);
    FlatGrows(chain, k + 1, |chain|);
    assert FlatTo(chain, k + 1) == FlatTo(chain, k) + chain[k];
    var f, g := Flat(chain), FlatTo(chain, k + 1);
    assert g == f[..|g|];
    assert f[s + o..s + o + n] == g[s + o..s + o + n];
  }

  // ---------------------------------------------------------------------------
  // The skip loop

  /** Where the loop that skips what is done arrives: pbuf and offset. It subtracts the length of
      the pbuf just reached, not of the one left behind; None: it follows the end of the chain. */
  function SkipFrom(chain: Chain, k: nat, offset: int): Option<(nat, int)>
    requires k <= |chain|
    decreases |chain| - k
  {
    if k < |chain| && offset >= |chain[k]| then
      if k + 1 == |chain| then None else SkipFrom(chain, k + 1, offset - |chain[k + 1]|)
    else Some((k, offset))
  }

  /** The offset the loop has computed on reaching pbuf j. */
  function OffsetAt(chain: Chain, done: int, j: nat): int
    requires j < |chain|
  {
    if j == 0 then done else OffsetAt(chain, done, j - 1) - |chain[j]|
  }

  /** It is off by the difference between the first pbuf and the one reached. */
  lemma {:induction false} OffsetIs(chain: Chain, done: int, j: nat)
    requires j < |chain|
    ensures OffsetAt(chain, done, j) == done - Start(chain, j) - |chain[j]| + |chain[0]|
  {
    if j > 0 { OffsetIs(chain, done, j - 1); }
  }

  /** The loop does not stop before pbuf k. */
  ghost predicate Passes(chain: Chain, done: int, k: nat)
    requires k < |chain|
  {
    forall j: nat | j < k :: OffsetAt(chain, done, j) >= |chain[j]|
  }

  lemma {:induction false} SkipArrives(chain: Chain, done: int, j: nat, k: nat, o: int)
    requires j <= k < |chain| && forall i: nat | i < j :: OffsetAt(chain, done, i) >= |chain[i]|
    ensures SkipFrom(chain, j, OffsetAt(chain, done, j)) == Some((k, o)) <==>
            Passes(chain, done, k) && o == OffsetAt(chain, done, k) && o < |chain[k]|
    decreases k - j
  {
    if j < k && OffsetAt(chain, done, j) >= |chain[j]| {
      SkipArrives(chain, done, j + 1, k, o);
    } else if j == k && OffsetAt(chain, done, j) >= |chain[j]| && k + 1 < |chain| {
      SkipStays(chain, k + 1, OffsetAt(chain, done, j) - |chain[k + 1]|);
    }
  }

  lemma {:induction false} SkipStays(chain: Chain, k: nat, offset: int)
    requires k <= |chain|
    ensures SkipFrom(chain, k, offset).Some? ==> SkipFrom(chain, k, offset).value.0 >= k
    decreases |chain| - k
  {
    if k + 1 < |chain| && offset >= |chain[k]| { SkipStays(chain, k + 1, offset - |chain[k + 1]|); }
  }

  /** Byte done of the chain is byte o of pbuf k. */
  predicate Located(chain: Chain, done: nat, k: nat, o: int) {
    k < |chain| && 0 <= o < |chain[k]| && done == Start(chain, k) + o
  }

  /** What a caller can check: the pbuf that holds the next byte is as long as the first, and
      no pbuf before it is so long that the loop stops there. */
  ghost predicate Resumable(chain: Chain, done: nat, k: nat)
    requires k < |chain|
  {
    |chain[k]| == |chain[0]| && Passes(chain, done, k)
  }

  /** The loop finds the next byte exactly under that condition. */
  lemma SkipExactIff(chain: Chain, done: nat, k: nat, o: int)
    requires Located(chain, done, k, o)
    ensures SkipFrom(chain, 0, done) == Some((k, o)) <==> Resumable(chain, done, k)
  {
    SkipArrives(chain, done, 0, k, o);
    OffsetIs(chain, done, k);
  }

  /** With pbufs of equal length the condition always holds. */
  lemma EqualIsResumable(chain: Chain, done: nat, k: nat, o: int)
    requires EqualLengths(chain) && Located(chain, done, k, o)
    ensures Resumable(chain, done, k)
  {
    forall j: nat | j < k ensures OffsetAt(chain, done, j) >= |chain[j]| {
      OffsetIs(chain, done, j);
      FlatGrows(chain, j + 1, k);
      assert FlatTo(chain, j + 1) == FlatTo(chain, j) + chain[j];
    }
  }

  /** Three bytes, then five, the three written: the loop arrives two bytes before the second. */
  lemma UnequalGoesWrong()
    ensures var chain := [[0, 1, 2], [3, 4, 5, 6, 7]];
            Located(chain, 3, 1, 0) && SkipFrom(chain, 0, 3) == Some((1, -2))
  {
    var chain: Chain := [[0, 1, 2], [3, 4, 5, 6, 7]];
    assert FlatTo(chain, 1) == FlatTo(chain, 0) + chain[0];
    assert SkipFrom(chain, 1, -2) == Some((1, -2));
  }

  /** Every byte of a chain is in one of its pbufs. */
  lemma {:induction false} Locate(chain: Chain, done: nat, j: nat) returns (k: nat, o: nat)
    requires j <= |chain| && done < Start(chain, j)
    ensures Located(chain, done, k, o)
  {
    if done >= Start(chain, j - 1) {
      k, o := j - 1, done - Start(chain, j - 1);
    } else {
      k, o := Locate(chain, done, j - 1);
    }
  }

  // ---------------------------------------------------------------------------
  // recv_cb

  /** A call of write(): how many bytes it was given and what it returned. */
  datatype Call = Call(asked: nat, got: int)

  class Socket {
    /** No write to the local socket fails. */
    const reliable: bool
    /** A write takes at least one byte, unless it fails. */
    const taking: bool
    var doneLen: nat
    var calls: seq<Call>
    /** Everything written to the local socket, and what tcp_recved was told of it. */
    var delivered: seq<Byte>
    var recved: nat
    var freed: nat
    var deleted: bool

    constructor (r: bool, t: bool)
      ensures doneLen == 0 && delivered == [] && recved == 0 && freed == 0 && !deleted && calls == []
      ensures reliable == r && taking == t
    {
      reliable, taking, calls := r, t, [];
      doneLen, delivered, recved, freed, deleted := 0, [], 0, 0, false;
    }

    /** write() to the local socket: an error, or some of the bytes. */
    method Write(data: seq<Byte>) returns (wlen: int)
      modifies `delivered, `calls
      ensures -1 <= wlen <= |data| && (reliable ==> wlen >= 0) && (taking && |data| > 0 ==> wlen != 0)
      ensures delivered == old(delivered) + data[..if wlen < 0 then 0 else wlen]
      ensures calls == old(calls) + [Call(|data|, wlen)]
    {
      wlen := *;
      if wlen < 0 { wlen := if reliable then |data| else -1; }
      if wlen > |data| || (taking && wlen == 0) { wlen := |data|; }
      calls := calls + [Call(|data|, wlen)];
      if wlen > 0 { delivered := delivered + data[..wlen]; }
    }

    /** The skip loop. */
    method Skip(chain: Chain) returns (k: nat, offset: int)
      requires SkipFrom(chain, 0, doneLen).Some?
      ensures SkipFrom(chain, 0, doneLen) == Some((k, offset))
    {
      k, offset := 0, doneLen;
      while k < |chain| && offset >= |chain[k]|
        invariant k <= |chain| && SkipFrom(chain, k, offset) == SkipFrom(chain, 0, doneLen)
        decreases |chain| - k
      {
        k := k + 1;
        offset := offset - |chain[k]|;
      }
    }

    /** What is out of this chain is what done_len says, since it said from. */
    ghost predicate Out(chain: Chain, from: nat, before: seq<Byte>)
      reads this
    {
      && from <= doneLen <= |Flat(chain)|
      && delivered == before + Flat(chain)[from..doneLen]
    }

    /** One write of recv_cb, of the rest of pbuf k. */
    method WritePiece(chain: Chain, k: nat, offset: nat, ghost from: nat, ghost before: seq<Byte>) returns (wlen: int)
      requires k < |chain| && offset <= |chain[k]| && doneLen == Start(chain, k) + offset
      requires Out(chain, from, before)
      modifies `delivered, `doneLen, `recved, `calls
      ensures Out(chain, from, before) && -1 <= wlen <= |chain[k]| - offset
      ensures calls == old(calls) + [Call(|chain[k]| - offset, wlen)]
      ensures wlen < 0 ==> doneLen == old(doneLen) && recved == old(recved)
      ensures wlen >= 0 ==> doneLen == old(doneLen) + wlen && recved == old(recved) + wlen
      ensures (reliable ==> wlen >= 0) && (taking && offset < |chain[k]| ==> wlen != 0)
    {
      wlen := Write(chain[k][offset..]);
      if wlen >= 0 {
        PieceOf(chain, k, offset, wlen);
        assert chain[k][offset..][..wlen] == chain[k][offset..offset + wlen];
        Further(before, Flat(chain), from, doneLen, wlen);
        doneLen := doneLen + wlen;
        recved := recved + wlen;
      } else {
        assert chain[k][offset..][..0] == [];
      }
    }

    /** recv_cb with a chain, where the skip loop can resume. */
    method Recv(chain: Chain, ghost at: nat, ghost o: int) returns (err: Err)
      requires !deleted && AllNonEmpty(chain) && doneLen < |Flat(chain)|
      requires Located(chain, doneLen, at, o) && Resumable(chain, doneLen, at)
      modifies this
      ensures recved - old(recved) == |delivered| - |old(delivered)|
      ensures err.Ok? ==> delivered == old(delivered) + Flat(chain)[old(doneLen)..] && doneLen == 0
      ensures !err.Ok? ==> old(doneLen) <= doneLen < |Flat(chain)| &&
                           delivered == old(delivered) + Flat(chain)[old(doneLen)..doneLen]
      ensures freed == (if err.Ok? then old(freed) + 1 else old(freed)) && deleted == err.Abrt?
      ensures Ended(old(calls), err) && (reliable ==> !err.Abrt?)
      ensures taking && !err.Abrt? ==> |delivered| > |old(delivered)|
    {
      assert delivered == delivered + Flat(chain)[doneLen..doneLen];
      SkipExactIff(chain, doneLen, at, o);
      var k, offset := Skip(chain);
      err := WriteOut(chain, k, offset, delivered);
      if err.Ok? {
        assert Flat(chain)[old(doneLen)..doneLen] == Flat(chain)[old(doneLen)..];
        doneLen := 0;
        freed := freed + 1;
      }
    }

    /** The writes of recv_cb, from byte `offset` of pbuf k on. */
    method WriteOut(chain: Chain, k0: nat, offset0: nat, ghost before: seq<Byte>) returns (err: Err)
      requires !deleted && AllNonEmpty(chain) && k0 < |chain| && offset0 < |chain[k0]|
      requires doneLen == Start(chain, k0) + offset0 && Out(chain, doneLen, before)
      modifies `delivered, `doneLen, `recved, `calls, `deleted
      ensures Out(chain, old(doneLen), before) && recved - old(recved) == doneLen - old(doneLen)
      ensures (doneLen == |Flat(chain)| <==> err.Ok?) && deleted == err.Abrt?
      ensures Ended(old(calls), err) && (reliable ==> !err.Abrt?)
      ensures taking && !err.Abrt? ==> doneLen > old(doneLen)
    {
      ghost var from := doneLen;
      var k, offset := k0, offset0;
      while k < |chain|
        invariant k <= |chain| && 0 <= offset && doneLen == Start(chain, k) + offset
        invariant k < |chain| ==> offset < |chain[k]|
        invariant k == |chain| ==> offset == 0
        invariant Out(chain, from, before) && !deleted && recved - old(recved) == doneLen - from
        invariant if calls == old(calls) then k < |chain| && doneLen == from
                  else Ended(old(calls), Ok) && doneLen > from
        decreases |chain| - k
      {
        var tryLen := |chain[k]| - offset;
        FlatGrows(chain, k + 1, |chain|);
        var wlen := WritePiece(chain, k, offset, from, before);
        offset := 0;
        if wlen < 0 {
          deleted := true;
          return Abrt;
        }
        if wlen < tryLen { return WouldBlock; }
        k := k + 1;
      }
      return Ok;
    }

    /** The writes since `before`: all but the last took everything, and the last decides. */
    ghost predicate Ended(before: seq<Call>, err: Err)
      reads this
    {
      && before < calls && (forall k | |before| <= k < |calls| - 1 :: calls[k].got == calls[k].asked)
      && var last := calls[|calls| - 1];
         match err
         case Abrt => last.got < 0
         case WouldBlock => 0 <= last.got < last.asked
         case Ok => last.got == last.asked
    }
  }

  lemma Further(before: seq<Byte>, f: seq<Byte>, from: nat, done: nat, n: nat)
    requires from <= done && done + n <= |f|
    ensures before + f[from..done] + f[done..done + n] == before + f[from..done + n]
  {
    assert f[from..done] + f[done..done + n] == f[from..done + n];
  }

  // ---------------------------------------------------------------------------
  // Whole runs

  /** What the first j chains carry. */
  function StreamTo(chains: seq<Chain>, j: nat): seq<Byte>
    requires j <= |chains|
  {
    if j == 0 then [] else StreamTo(chains, j - 1) + Flat(chains[j - 1])
  }

  /** Any number of presentations of a stream of chains: the bytes delivered are those of the
      chains accepted and the part of the next one that is out, each once and in order; lwIP was
      told of exactly as many; and each accepted chain was freed once. The slot is deleted exactly
      if a write failed. If none does and each takes a byte or more, everything arrives, however
      often a write is cut short. */
  method RelayStream(chains: seq<Chain>, reliable: bool, taking: bool, rounds: nat)
    returns (accepted: nat, doneLen: nat, delivered: seq<Byte>, recved: nat, freed: nat,
             deleted: bool, calls: seq<Call>)
    requires forall j | 0 <= j < |chains| :: chains[j] != [] && AllNonEmpty(chains[j]) && EqualLengths(chains[j])
    ensures accepted <= |chains| && freed == accepted && recved == |delivered|
    ensures accepted == |chains| ==> delivered == StreamTo(chains, |chains|)
    ensures accepted < |chains| ==> doneLen < |Flat(chains[accepted])|
    ensures accepted < |chains| ==> delivered == StreamTo(chains, accepted) + Flat(chains[accepted])[..doneLen]
    ensures deleted <==> Failed(calls)
    ensures reliable ==> !deleted
    ensures reliable && taking && rounds >= |StreamTo(chains, |chains|)| ==> accepted == |chains|
  {
    var s := new Socket(reliable, taking);
    accepted := 0;
    if |chains| > 0 { NonEmptyFlat(chains[0]); }
    for r := 0 to rounds
      invariant InOrder(s, chains, accepted) && s.reliable == reliable && s.taking == taking
      invariant reliable ==> !s.deleted
      invariant reliable && taking && accepted < |chains| ==> |s.delivered| >= r
    {
      if accepted < |chains| && !s.deleted { accepted := Present(s, chains, accepted); }
    }
    if accepted < |chains| { StreamFurther(chains, accepted, s.doneLen); }
    doneLen, delivered, recved, freed, deleted, calls := s.doneLen, s.delivered, s.recved, s.freed, s.deleted, s.calls;
  }

  ghost predicate Failed(calls: seq<Call>) { exists k :: 0 <= k < |calls| && calls[k].got < 0 }

  /** What is delivered when this many chains are accepted. */
  ghost predicate InOrder(s: Socket, chains: seq<Chain>, accepted: nat)
    reads s
  {
    && accepted <= |chains| && s.freed == accepted && s.recved == |s.delivered| && (s.deleted <==> Failed(s.calls))
    && if accepted == |chains| then s.doneLen == 0 && s.delivered == StreamTo(chains, accepted)
       else s.doneLen < |Flat(chains[accepted])| &&
            s.delivered == StreamTo(chains, accepted) + Flat(chains[accepted])[..s.doneLen]
  }

  /** The next chain is presented, once more or for the first time. */
  method Present(s: Socket, chains: seq<Chain>, accepted: nat) returns (now: nat)
    requires forall j | 0 <= j < |chains| :: chains[j] != [] && AllNonEmpty(chains[j]) && EqualLengths(chains[j])
    requires InOrder(s, chains, accepted) && accepted < |chains| && !s.deleted
    modifies s
    ensures InOrder(s, chains, now)
    ensures s.reliable ==> !s.deleted
    ensures s.reliable && s.taking ==> |s.delivered| > |old(s.delivered)|
  {
    var chain := chains[accepted];
    ghost var f, d, prev := Flat(chain), s.doneLen, StreamTo(chains, accepted);
    ghost var at, o := Locate(chain, s.doneLen, |chain|);
    EqualIsResumable(chain, s.doneLen, at, o);
    ghost var calls := s.calls;
    var err := s.Recv(chain, at, o);
    FailedNow(s, calls, err);
    now := accepted;
    if err.Ok? {
      assert prev + f[..d] + f[d..] == prev + f;
      now := accepted + 1;
      if now < |chains| { NonEmptyFlat(chains[now]); }
    } else {
      assert prev + f[..d] + f[d..s.doneLen] == prev + f[..s.doneLen];
    }
  }

  lemma FailedNow(s: Socket, before: seq<Call>, err: Err)
    requires !Failed(before) && s.Ended(before, err)
    ensures Failed(s.calls) <==> err.Abrt?
  {
    if err.Abrt? { assert s.calls[|s.calls| - 1].got < 0; }
    assert forall k | 0 <= k < |before| :: s.calls[k] == before[k];
  }

  lemma {:induction false} StreamFurther(chains: seq<Chain>, j: nat, d: nat)
    requires j < |chains| && d < |Flat(chains[j])|
    ensures |StreamTo(chains, j)| + d < |StreamTo(chains, |chains|)|
  {
    StreamGrows(chains, j + 1, |chains|);
  }

  lemma {:induction false} StreamGrows(chains: seq<Chain>, j: nat, k: nat)
    requires j <= k <= |chains|
    ensures |StreamTo(chains, j)| <= |StreamTo(chains, k)|
  {
    if j < k { StreamGrows(chains, j, k - 1); }
  }

  lemma NonEmptyFlat(chain: Chain)
    requires chain != [] && AllNonEmpty(chain)
    ensures |Flat(chain)| > 0
  {
    FlatGrows(chain, 1, |chain|);
    assert FlatTo(chain, 1) == FlatTo(chain, 0) + chain[0];
  }
}
