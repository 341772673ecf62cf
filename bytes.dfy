// Bytes and the C string primitives the .PKGINFO reader relies on.

module Bytes {

  /** A C `char` as the reader sees it: one byte. */
  newtype byte = x: int | 0 <= x < 256

  type Bytes = seq<byte>

  datatype Option<+T> = None | Some(value: T)

  const NUL: byte := 0
  const LF: byte := 10
  const SP: byte := 32
  const EQ: byte := 61

  /** A byte string read as text, one character per byte, as strcmp compares it. */
  function AsString(b: Bytes): (t: string)
    ensures |t| == |b| && forall i :: 0 <= i < |b| ==> t[i] == b[i] as int as char
  {
    seq(|b|, i requires 0 <= i < |b| => b[i] as int as char)
  }

  /** memchr / strchr: the index of the first `x` in `s`, or `|s|` when there is none. */
  function Find(s: Bytes, x: byte): (i: nat)
    ensures i <= |s|
    ensures i < |s| ==> s[i] == x
    ensures forall j :: 0 <= j < i ==> s[j] != x
  {
    if s == [] then 0
    else if s[0] == x then 0
    else 1 + Find(s[1..], x)
  }

  /** strsep with the delimiter set " =": the index of the first space or '=' in `s`. */
  function FindSep(s: Bytes): (i: nat)
    ensures i <= |s|
    ensures i < |s| ==> s[i] == SP || s[i] == EQ
    ensures forall j :: 0 <= j < i ==> s[j] != SP && s[j] != EQ
  {
    if s == [] then 0
    else if s[0] == SP || s[0] == EQ then 0
    else 1 + FindSep(s[1..])
  }

  /** What the C string functions see of a buffer: everything before its first NUL. */
  function CStr(s: Bytes): (r: Bytes)
    ensures NUL !in r
    ensures |r| <= |s| && r == s[..|r|]
    ensures |r| < |s| ==> s[|r|] == NUL
  {
    s[..Find(s, NUL)]
  }

  /** Where the first `x` lies in a concatenation. */
  lemma {:induction false} FindConcat(a: Bytes, b: Bytes, x: byte)
    ensures Find(a + b, x) == if x in a then Find(a, x) else |a| + Find(b, x)
  {
    if a != [] {
      assert (a + b)[0] == a[0] && (a + b)[1..] == a[1..] + b;
      assert a == [a[0]] + a[1..];
      FindConcat(a[1..], b, x);
    } else {
      assert a + b == b;
    }
  }

  /** Where the first separator lies in a concatenation. */
  lemma {:induction false} FindSepConcat(a: Bytes, b: Bytes)
    requires SP !in a && EQ !in a
    ensures FindSep(a + b) == |a| + FindSep(b)
  {
    if a != [] {
      assert (a + b)[0] == a[0] && (a + b)[1..] == a[1..] + b;
      assert a[0] in a;
      FindSepConcat(a[1..], b);
    } else {
      assert a + b == b;
    }
  }
}
