/** The base64 encoder of the SMTP client (smtp_base64_encode in
    contrib/apps/smtp/smtp.c), which moves single bits, against the encoding of section 4
    of RFC 4648. */
module Base64 {
  import opened Basics

  type Sixbits = v: int | 0 <= v < 64

  /** base64_table, the alphabet of table 1 of RFC 4648. */
  function Char(v: Sixbits): char {
    if v < 26 then 'A' + v as char
    else if v < 52 then 'a' + (v - 26) as char
    else if v < 62 then '0' + (v - 52) as char
    else if v == 62 then '+'
    else '/'
  }

  // ---------------------------------------------------------------------------
  // Section 4 of RFC 4648

  /** Three bytes, read as one number of 24 bits, make four numbers of six bits. */
  function Group(a: Byte, b: Byte, c: Byte): string {
    [Char(a / 4), Char(a % 4 * 16 + b / 16), Char(b % 16 * 4 + c / 64), Char(c % 64)]
  }

  /** Full groups, then a group with one or two bytes and padding. */
  function Encode(s: seq<Byte>): string {
    if |s| == 0 then ""
    else if |s| == 1 then Group(s[0], 0, 0)[..2] + "=="
    else if |s| == 2 then Group(s[0], s[1], 0)[..3] + "="
    else Group(s[0], s[1], s[2]) + Encode(s[3..])
  }

  // ---------------------------------------------------------------------------
  // The bits the encoder moves

  /** Bit j of b: (b & (1 << j)) != 0, as 0 or 1. */
  function Bit(b: nat, j: nat): (r: nat)
    ensures r <= 1
    decreases j
  {
    if j == 0 then b % 2 else Bit(b / 2, j - 1)
  }

  /** bit << x, for the places of a group of six. */
  function Shifted(bit: nat, x: nat): nat
    requires x < 6
  {
    match x
    case 0 => bit case 1 => 2 * bit case 2 => 4 * bit
    case 3 => 8 * bit case 4 => 16 * bit case 5 => 32 * bit
  }

  /** The source, with zero bytes after its end. */
  function At(s: seq<Byte>, i: nat): Byte { if i < |s| then s[i] else 0 }

  /** The k-th bit of the source, most significant bit of each byte first. */
  function StreamBit(s: seq<Byte>, k: nat): (r: nat)
    ensures r <= 1
  {
    Bit(At(s, k / 8), 7 - k % 8)
  }

  /** The first m bits of the n-th group of six, in their final places. */
  function Partial(s: seq<Byte>, n: nat, m: nat): (r: nat)
    requires m <= 6
    ensures m == 0 ==> r == 0
    ensures 0 < m ==> r <= 64 - Shifted(1, 6 - m)
  {
    if m == 0 then 0
    else Partial(s, n, m - 1) + Shifted(StreamBit(s, 6 * n + m - 1), 6 - m)
  }

  function Sextet(s: seq<Byte>, n: nat): Sixbits { Partial(s, n, 6) }

  function CharAt(s: seq<Byte>, n: nat): char { Char(Sextet(s, n)) }

  /** The first n characters the bit loop writes: one for every six bits. */
  function Chars(s: seq<Byte>, n: nat): (r: string) { seq(n, i requires 0 <= i < n => CharAt(s, i)) }

  function Equals(n: nat): string { seq(n, _ => '=') }

  /** How many bytes the encoder adds: one to three, never none. */
  function Longer(s: seq<Byte>): nat { 3 - |s| % 3 }

  /** How many characters that makes. */
  function Length(s: seq<Byte>): (len: nat)
    ensures 6 * len == 8 * (|s| + Longer(s)) && len >= 4
  {
    (|s| + Longer(s)) * 4 / 3
  }

  /** The characters the encoder leaves in its target. */
  function Result(s: seq<Byte>): string {
    Chars(s, Length(s))[..Length(s) - Longer(s)] + Equals(Longer(s))
  }

  /** One bit of the loop: the bit is put in place, and every sixth one ends a character. */
  lemma BitStep(s: seq<Byte>, k: nat)
    ensures k % 6 < 5 ==> (k + 1) / 6 == k / 6 && (k + 1) % 6 == k % 6 + 1
    ensures k % 6 == 5 ==> (k + 1) / 6 == k / 6 + 1 && (k + 1) % 6 == 0
    ensures Partial(s, k / 6, k % 6 + 1) ==
            Partial(s, k / 6, k % 6) + Shifted(StreamBit(s, k), 5 - k % 6)
  {
    assert k == 6 * (k / 6) + k % 6;
  }

  /** How far the loop is after k bits. */
  ghost predicate Progress(s: seq<Byte>, k: nat, targetIdx: nat, x: nat, current: nat) {
    targetIdx == k / 6 && x == 5 - k % 6 && current == Partial(s, k / 6, k % 6)
  }

  /** The body of the inner loop. `current |= shift << x` adds, since bit x is still clear. */
  method EncodeBit(target: array<char>, source: seq<Byte>, ghost k: nat, bit: nat,
                   targetIdx0: nat, x0: nat, current0: nat)
    returns (targetIdx: nat, x: nat, current: nat)
    requires k < 6 * Length(source) && Length(source) <= target.Length
    requires bit == StreamBit(source, k)
    requires Progress(source, k, targetIdx0, x0, current0)
    requires target[..targetIdx0] == Chars(source, targetIdx0)
    modifies target
    ensures Progress(source, k + 1, targetIdx, x, current)
    ensures targetIdx <= Length(source) && target[..targetIdx] == Chars(source, targetIdx)
    ensures target[Length(source)..] == old(target[Length(source)..])
  {
    targetIdx, x := targetIdx0, x0;
    current := current0 + Shifted(bit, x);
    BitStep(source, k);
    if x == 0 {
      target[targetIdx] := Char(current);
      assert target[targetIdx] == CharAt(source, targetIdx);
      assert target[..targetIdx + 1] == target[..targetIdx] + [target[targetIdx]];
      targetIdx := targetIdx + 1;
      x := 6;
      current := 0;
    }
    x := x - 1;
  }

  /** The inner loop, for the byte at i. */
  method EncodeByte(target: array<char>, source: seq<Byte>, i: nat, targetIdx0: nat, x0: nat, current0: nat)
    returns (targetIdx: nat, x: nat, current: nat)
    requires 8 * i + 8 <= 6 * Length(source) && Length(source) <= target.Length
    requires Progress(source, 8 * i, targetIdx0, x0, current0)
    requires target[..targetIdx0] == Chars(source, targetIdx0)
    modifies target
    ensures Progress(source, 8 * i + 8, targetIdx, x, current)
    ensures targetIdx <= Length(source) && target[..targetIdx] == Chars(source, targetIdx)
    ensures target[Length(source)..] == old(target[Length(source)..])
  {
    targetIdx, x, current := targetIdx0, x0, current0;
    var b := At(source, i);
    var j := 7;
    while j >= 0
      invariant -1 <= j <= 7 && Progress(source, 8 * i + 7 - j, targetIdx, x, current)
      invariant targetIdx <= Length(source) && target[..targetIdx] == Chars(source, targetIdx)
      invariant target[Length(source)..] == old(target[Length(source)..])
    {
      ghost var k := 8 * i + 7 - j;
      assert StreamBit(source, k) == Bit(b, j) by { assert k / 8 == i && k % 8 == 7 - j; }
      targetIdx, x, current := EncodeBit(target, source, k, Bit(b, j), targetIdx, x, current);
      j := j - 1;
    }
  }

  method Pad(target: array<char>, len: nat, longer: nat)
    requires longer <= len <= target.Length
    modifies target
    ensures target[..len] == old(target[..len - longer]) + Equals(longer)
    ensures target[len..] == old(target[len..])
  {
    var i := len - longer;
    while i < len
      invariant len - longer <= i <= len
      invariant target[..len - longer] == old(target[..len - longer])
      invariant forall k :: len - longer <= k < i ==> target[k] == '='
      invariant target[len..] == old(target[len..])
    {
      target[i] := '=';
      i := i + 1;
    }
  }

  /** smtp_base64_encode */
  method EncodeBits(target: array<char>, source: seq<Byte>) returns (len: nat)
    requires Length(source) <= target.Length
    modifies target
    ensures len == |Result(source)| <= target.Length
    ensures target[..len] == Result(source)
    ensures target[len..] == old(target[len..])
  {
    var longer := Longer(source);
    var padded := |source| + longer;
    len := padded * 4 / 3;
    var targetIdx: nat, x: nat, current: nat := 0, 5, 0;
    for i := 0 to padded
      invariant Progress(source, 8 * i, targetIdx, x, current)
      invariant targetIdx <= len && target[..targetIdx] == Chars(source, targetIdx)
      invariant target[len..] == old(target[len..])
    {
      targetIdx, x, current := EncodeByte(target, source, i, targetIdx, x, current);
    }
    assert targetIdx == len;
    assert target[..len - longer] == target[..len][..len - longer];
    Pad(target, len, longer);
  }

  // ---------------------------------------------------------------------------
  // Bits and bytes

  // A byte is the sum of its bits; cut where the groups of six cut it, so are both parts.

  lemma Quarter(b: nat, j: nat)
    ensures Bit(b, j + 2) == Bit(b / 4, j)
  {
    assert Bit(b, j + 2) == Bit(b / 2, j + 1) == Bit(b / 2 / 2, j);
    assert b / 2 / 2 == b / 4;
  }

  lemma Sum2(b: nat)
    requires b < 4
    ensures b == 2 * Bit(b, 1) + Bit(b, 0)
  {
    assert Bit(b, 1) == Bit(b / 2, 0) == b / 2;
  }

  /** Two more bits at the bottom. */
  lemma Low2(b: nat)
    ensures b == 4 * (b / 4) + 2 * Bit(b, 1) + Bit(b, 0)
  {
    assert Bit(b, 1) == Bit(b / 2, 0) == b / 2 % 2;
    assert b / 4 == b / 2 / 2;
  }

  lemma Sum4(b: nat)
    requires b < 16
    ensures b == 8 * Bit(b, 3) + 4 * Bit(b, 2) + 2 * Bit(b, 1) + Bit(b, 0)
  {
    Sum2(b / 4);
    Quarter(b, 0); Quarter(b, 1);
    Low2(b);
  }

  lemma Sum6(b: nat)
    requires b < 64
    ensures b == 32 * Bit(b, 5) + 16 * Bit(b, 4) + 8 * Bit(b, 3) + 4 * Bit(b, 2) + 2 * Bit(b, 1) + Bit(b, 0)
  {
    Sum4(b / 4);
    Quarter(b, 0); Quarter(b, 1); Quarter(b, 2); Quarter(b, 3);
    Low2(b);
  }

  lemma Top6(b: Byte)
    ensures b / 4 == 32 * Bit(b, 7) + 16 * Bit(b, 6) + 8 * Bit(b, 5) + 4 * Bit(b, 4) + 2 * Bit(b, 3) + Bit(b, 2)
  {
    Sum6(b / 4);
    Quarter(b, 0); Quarter(b, 1); Quarter(b, 2); Quarter(b, 3); Quarter(b, 4); Quarter(b, 5);
  }

  lemma Top4(b: Byte)
    ensures b / 16 == 8 * Bit(b, 7) + 4 * Bit(b, 6) + 2 * Bit(b, 5) + Bit(b, 4)
  {
    Top6(b);
    Low2(b / 4);
    Quarter(b, 0); Quarter(b, 1);
  }

  lemma Top2(b: Byte)
    ensures b / 64 == 2 * Bit(b, 7) + Bit(b, 6)
  {
    Top4(b);
    Low2(b / 16);
    Quarter(b, 2); Quarter(b, 3);
    Quarter(b / 4, 0); Quarter(b / 4, 1);
  }

  lemma Bottom2(b: Byte)
    ensures b % 4 == 2 * Bit(b, 1) + Bit(b, 0)
  {
    Low2(b);
  }

  lemma Bottom4(b: Byte)
    ensures b % 16 == 8 * Bit(b, 3) + 4 * Bit(b, 2) + 2 * Bit(b, 1) + Bit(b, 0)
  {
    Top4(b);
    Top6(b);
    Low2(b);
  }

  lemma Bottom6(b: Byte)
    ensures b % 64 == 32 * Bit(b, 5) + 16 * Bit(b, 4) + 8 * Bit(b, 3) + 4 * Bit(b, 2) + 2 * Bit(b, 1) + Bit(b, 0)
  {
    Top2(b);
    Top6(b);
    Low2(b);
  }

  /** Six bits in a row, in their places. */
  function Six(s: seq<Byte>, k: nat): nat {
    32 * StreamBit(s, k) + 16 * StreamBit(s, k + 1) + 8 * StreamBit(s, k + 2) +
    4 * StreamBit(s, k + 3) + 2 * StreamBit(s, k + 4) + StreamBit(s, k + 5)
  }

  lemma SextetBits(s: seq<Byte>, n: nat)
    ensures Sextet(s, n) == Six(s, 6 * n)
  {
    assert Partial(s, n, 1) == 32 * StreamBit(s, 6 * n);
    assert Partial(s, n, 2) == Partial(s, n, 1) + 16 * StreamBit(s, 6 * n + 1);
    assert Partial(s, n, 3) == Partial(s, n, 2) + 8 * StreamBit(s, 6 * n + 2);
    assert Partial(s, n, 4) == Partial(s, n, 3) + 4 * StreamBit(s, 6 * n + 3);
    assert Partial(s, n, 5) == Partial(s, n, 4) + 2 * StreamBit(s, 6 * n + 4);
    assert Partial(s, n, 6) == Partial(s, n, 5) + StreamBit(s, 6 * n + 5);
  }

  lemma InByte(s: seq<Byte>, i: nat, j: nat)
    requires j < 8
    ensures StreamBit(s, 8 * i + 7 - j) == Bit(At(s, i), j)
  {
    assert (8 * i + 7 - j) / 8 == i && (8 * i + 7 - j) % 8 == 7 - j;
  }

  lemma SixBits(s: seq<Byte>)
    ensures var a, b, c := At(s, 0), At(s, 1), At(s, 2);
      && Six(s, 0) == 32 * Bit(a, 7) + 16 * Bit(a, 6) + 8 * Bit(a, 5) + 4 * Bit(a, 4) + 2 * Bit(a, 3) + Bit(a, 2)
      && Six(s, 6) == 32 * Bit(a, 1) + 16 * Bit(a, 0) + 8 * Bit(b, 7) + 4 * Bit(b, 6) + 2 * Bit(b, 5) + Bit(b, 4)
      && Six(s, 12) == 32 * Bit(b, 3) + 16 * Bit(b, 2) + 8 * Bit(b, 1) + 4 * Bit(b, 0) + 2 * Bit(c, 7) + Bit(c, 6)
      && Six(s, 18) == 32 * Bit(c, 5) + 16 * Bit(c, 4) + 8 * Bit(c, 3) + 4 * Bit(c, 2) + 2 * Bit(c, 1) + Bit(c, 0)
  {
    forall i: nat, j: nat | i < 3 && j < 8 ensures StreamBit(s, 8 * i + 7 - j) == Bit(At(s, i), j) {
      InByte(s, i, j);
    }
  }

  lemma SixValues(s: seq<Byte>)
    ensures var a, b, c := At(s, 0), At(s, 1), At(s, 2);
      && Six(s, 0) == a / 4
      && Six(s, 6) == a % 4 * 16 + b / 16
      && Six(s, 12) == b % 16 * 4 + c / 64
      && Six(s, 18) == c % 64
  {
    SixBits(s);
    var a, b, c := At(s, 0), At(s, 1), At(s, 2);
    Top6(a); Bottom2(a);
    Top4(b); Bottom4(b);
    Top2(c); Bottom6(c);
  }

  /** The first four characters are the first group. */
  lemma FirstGroup(s: seq<Byte>)
    ensures Chars(s, 4) == Group(At(s, 0), At(s, 1), At(s, 2))
  {
    SextetBits(s, 0); SextetBits(s, 1); SextetBits(s, 2); SextetBits(s, 3);
    SixValues(s);
  }

  lemma {:induction false} PartialShift(s: seq<Byte>, n: nat, m: nat)
    requires |s| >= 3 && m <= 6
    ensures Partial(s, n + 4, m) == Partial(s[3..], n, m)
  {
    if m > 0 {
      PartialShift(s, n, m - 1);
      var k := 6 * n + m - 1;
      assert (k + 24) / 8 == k / 8 + 3 && (k + 24) % 8 == k % 8;
      assert StreamBit(s, k + 24) == StreamBit(s[3..], k);
    }
  }

  /** Past the first group the encoder does what it does on the rest. */
  lemma CharsShift(s: seq<Byte>, n: nat)
    requires |s| >= 3
    ensures Chars(s, n + 4) == Chars(s, 4) + Chars(s[3..], n)
  {
    forall i: nat | i < n ensures CharAt(s, i + 4) == CharAt(s[3..], i) { PartialShift(s, i, 6); }
    assert forall i :: 4 <= i < n + 4 ==> CharAt(s, i) == CharAt(s[3..], i - 4) by {
      forall i: nat | 4 <= i < n + 4 ensures CharAt(s, i) == CharAt(s[3..], i - 4) { PartialShift(s, i - 4, 6); }
    }
  }

  // ---------------------------------------------------------------------------
  // Main results

  lemma ResultStep(s: seq<Byte>)
    requires |s| >= 3
    ensures Result(s) == Group(s[0], s[1], s[2]) + Result(s[3..])
  {
    var t := s[3..];
    assert Longer(s) == Longer(t) && Length(s) == Length(t) + 4;
    CharsShift(s, Length(t));
    FirstGroup(s);
    TakePast(Chars(s, 4), Chars(t, Length(t)), Length(t) - Longer(t));
  }

  lemma TakePast(x: string, y: string, n: nat)
    requires n <= |y|
    ensures (x + y)[..|x| + n] == x + y[..n]
  {
  }

  /** A last group: what the loop makes of it, cut off by the padding. */
  lemma LastGroup(s: seq<Byte>)
    requires |s| < 3
    ensures Result(s) == Group(At(s, 0), At(s, 1), At(s, 2))[..4 - Longer(s)] + Equals(Longer(s))
  {
    assert Length(s) == 4;
    FirstGroup(s);
  }

  lemma Padding()
    ensures Equals(1) == "=" && Equals(2) == "==" && Equals(3) == "==="
  {
  }

  lemma EmptyGroup()
    ensures Group(0, 0, 0)[..1] + "===" == "A==="
  {
    assert Group(0, 0, 0)[..1] == "A";
  }

  /** The bit loop computes the encoding of RFC 4648, with one group too many when the length
      is a multiple of three. */
  lemma {:induction false} ResultIsEncoding(s: seq<Byte>)
    ensures Result(s) == if |s| % 3 != 0 then Encode(s) else Encode(s) + "A==="
  {
    if |s| >= 3 {
      ResultIsEncoding(s[3..]);
      ResultStep(s);
      assert |s| % 3 == |s[3..]| % 3;
    } else {
      LastGroup(s);
      Padding();
      EmptyGroup();
    }
  }

  // ---------------------------------------------------------------------------
  // Decoding

  /** The value of a character of the alphabet. */
  function Value(c: char): (r: Option<Sixbits>)
    ensures r.Some? ==> Char(r.value) == c
  {
    if 'A' <= c <= 'Z' then Some((c - 'A') as int)
    else if 'a' <= c <= 'z' then Some((c - 'a') as int + 26)
    else if '0' <= c <= '9' then Some((c - '0') as int + 52)
    else if c == '+' then Some(62)
    else if c == '/' then Some(63)
    else None
  }

  lemma ValueOfChar(v: Sixbits)
    ensures Value(Char(v)) == Some(v)
  {
  }

  /** The bytes of a full group of four characters. */
  function Ungroup(g: string): Option<seq<Byte>>
    requires |g| == 4
  {
    match (Value(g[0]), Value(g[1]), Value(g[2]), Value(g[3]))
    case (Some(p), Some(q), Some(r), Some(t)) => Some([p * 4 + q / 16, q % 16 * 16 + r / 4, r % 4 * 64 + t])
    case _ => None
  }

  /** The bytes of the last group, which may end in padding; the bits cut off must be zero. */
  function UngroupLast(g: string): Option<seq<Byte>>
    requires |g| == 4
  {
    if g[3] != '=' then Ungroup(g)
    else if g[2] != '=' then
      match (Value(g[0]), Value(g[1]), Value(g[2]))
      case (Some(p), Some(q), Some(r)) =>
        if r % 4 == 0 then Some([p * 4 + q / 16, q % 16 * 16 + r / 4]) else None
      case _ => None
    else
      match (Value(g[0]), Value(g[1]))
      case (Some(p), Some(q)) => if q % 16 == 0 then Some([p * 4 + q / 16]) else None
      case _ => None
  }

  /** The strict decoder of section 4 of RFC 4648. */
  function Decode(t: string): Option<seq<Byte>> {
    if |t| == 0 then Some([])
    else if |t| < 4 then None
    else if |t| == 4 then UngroupLast(t)
    else Join(Ungroup(t[..4]), Decode(t[4..]))
  }

  function Join(x: Option<seq<Byte>>, y: Option<seq<Byte>>): Option<seq<Byte>> {
    if x.Some? && y.Some? then Some(x.value + y.value) else None
  }

  lemma UngroupGroup(a: Byte, b: Byte, c: Byte)
    ensures Ungroup(Group(a, b, c)) == UngroupLast(Group(a, b, c)) == Some([a, b, c])
  {
    var p, q, r, t := a / 4, a % 4 * 16 + b / 16, b % 16 * 4 + c / 64, c % 64;
    ValueOfChar(p); ValueOfChar(q); ValueOfChar(r); ValueOfChar(t);
    assert q / 16 == a % 4 && q % 16 == b / 16 && r / 4 == b % 16 && r % 4 == c / 64;
  }

  lemma UngroupTwo(a: Byte, b: Byte)
    ensures UngroupLast(Group(a, b, 0)[..3] + "=") == Some([a, b])
  {
    var p, q, r := a / 4, a % 4 * 16 + b / 16, b % 16 * 4;
    ValueOfChar(p); ValueOfChar(q); ValueOfChar(r);
    assert q / 16 == a % 4 && q % 16 == b / 16 && r / 4 == b % 16 && r % 4 == 0;
  }

  lemma UngroupOne(a: Byte)
    ensures UngroupLast(Group(a, 0, 0)[..2] + "==") == Some([a])
  {
    var p, q := a / 4, a % 4 * 16;
    ValueOfChar(p); ValueOfChar(q);
    assert q / 16 == a % 4 && q % 16 == 0;
  }

  lemma ShortTrip(s: seq<Byte>)
    requires 0 < |s| < 3
    ensures Decode(Encode(s)) == Some(s)
  {
    if |s| == 1 {
      UngroupOne(s[0]);
      assert s == [s[0]];
    } else {
      UngroupTwo(s[0], s[1]);
      assert s == [s[0], s[1]];
    }
  }

  lemma TripStep(s: seq<Byte>, code: string, rest: string)
    requires |s| >= 3 && code == Group(s[0], s[1], s[2]) + rest && Decode(rest) == Some(s[3..])
    ensures Decode(code) == Some(s)
  {
    UngroupGroup(s[0], s[1], s[2]);
    DecodeStep(Group(s[0], s[1], s[2]), rest);
    assert s == [s[0], s[1], s[2]] + s[3..];
  }

  /** Decoding undoes the encoding. */
  lemma {:induction false} RoundTrip(s: seq<Byte>)
    ensures Decode(Encode(s)) == Some(s)
  {
    if |s| >= 3 {
      RoundTrip(s[3..]);
      TripStep(s, Encode(s), Encode(s[3..]));
    } else if |s| > 0 {
      ShortTrip(s);
    }
  }

  lemma DecodeStep(g: string, t: string)
    requires |g| == 4 && (t == "" ==> Ungroup(g) == UngroupLast(g))
    ensures Decode(g + t) == Join(Ungroup(g), Decode(t))
  {
    if t == "" {
      assert g + t == g;
      var x := Ungroup(g);
      if x.Some? { assert x.value + [] == x.value; }
    }
    assert (g + t)[..4] == g && (g + t)[4..] == t;
  }

  /** The group too many is no base64. */
  lemma {:induction false} SpoiltTail(s: seq<Byte>)
    requires |s| % 3 == 0
    ensures Decode(Encode(s) + "A===") == None
  {
    if |s| == 0 {
      assert "" + "A===" == "A===";
      assert UngroupLast("A===") == None;
    } else {
      SpoiltTail(s[3..]);
      var g := Group(s[0], s[1], s[2]);
      assert Encode(s) + "A===" == g + (Encode(s[3..]) + "A===");
      DecodeStep(g, Encode(s[3..]) + "A===");
    }
  }

  /** What the encoder writes decodes back exactly when the length is no multiple of three. */
  lemma DecodesBackIff(s: seq<Byte>)
    ensures Decode(Result(s)) == Some(s) <==> |s| % 3 != 0
  {
    ResultIsEncoding(s);
    if |s| % 3 == 0 { SpoiltTail(s); } else { RoundTrip(s); }
  }
}
