/** What several modules share. */
module Basics {

  datatype Option<T> = None | Some(value: T)

  const U16_MAX: nat := 0xffff

  ghost predicate Distinct<T>(s: seq<T>) { forall i: nat, j: nat | i < j < |s| :: s[i] != s[j] }

  type Byte = b: int | 0 <= b < 256

  /** Pieces of data put together again. */
  function Concat(pieces: seq<seq<Byte>>): seq<Byte> {
    if |pieces| == 0 then [] else pieces[0] + Concat(pieces[1..])
  }

  predicate AllNonEmpty(pieces: seq<seq<Byte>>) { forall k | 0 <= k < |pieces| :: |pieces[k]| > 0 }

  lemma {:induction false} ConcatAppend(a: seq<seq<Byte>>, b: seq<seq<Byte>>)
    ensures Concat(a + b) == Concat(a) + Concat(b)
  {
    if |a| == 0 {
      assert a + b == b;
    } else {
      ConcatAppend(a[1..], b);
      assert (a + b)[0] == a[0] && (a + b)[1..] == a[1..] + b;
      Assoc(a[0], Concat(a[1..]), Concat(b));
    }
  }

  lemma Assoc<T>(a: seq<T>, b: seq<T>, c: seq<T>)
    ensures a + b + c == a + (b + c)
  {
  }

  /** A buffer read as a C string ends at its first NUL. */
  function CString(s: string): string {
    if s == "" || s[0] == '\0' then "" else [s[0]] + CString(s[1..])
  }

  lemma {:induction false} CStringEnds(s: string)
    ensures CString(s) <= s && '\0' !in CString(s) && (|CString(s)| < |s| ==> s[|CString(s)|] == '\0')
  {
    if s != "" && s[0] != '\0' { CStringEnds(s[1..]); }
  }
}
