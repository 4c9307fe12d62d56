/** Byte strings, the C string functions the driver and the server rely on, and
    the two folds (concatenation and sum) in which their properties are stated. */
module Bytes {

  newtype byte = x: int | 0 <= x < 256

  const NUL: byte := 0
  const NEWLINE: byte := 10

  const SIZE_T: int := 0x1_0000_0000_0000_0000

  /** `loff_t` values reach the ring as `size_t`: reduction modulo 2^64. */
  function SizeT(x: int): (n: nat)
    ensures 0 <= x < SIZE_T ==> n == x
    ensures -SIZE_T <= x < 0 ==> n == x + SIZE_T
  {
    x % 0x1_0000_0000_0000_0000
  }

  ghost predicate EndsWith(s: seq<byte>, suffix: seq<byte>) {
    |suffix| <= |s| && s[|s| - |suffix|..] == suffix
  }

  lemma SizeTAdd(x: int, n: nat)
    requires SizeT(x) + n < SIZE_T
    ensures SizeT(x + n) == SizeT(x) + n
  {
  }

  function Zeros(n: nat): (z: seq<byte>)
    ensures |z| == n
    ensures forall i :: 0 <= i < n ==> z[i] == NUL
  {
    seq(n, _ => NUL)
  }

  // ----- C strings

  /** `strlen`: the index of the first NUL (or the length, when there is none). */
  function StrLen(s: seq<byte>): (n: nat)
    ensures n <= |s|
    ensures forall i :: 0 <= i < n ==> s[i] != NUL
    ensures n < |s| ==> s[n] == NUL
  {
    if s == [] || s[0] == NUL then 0 else 1 + StrLen(s[1..])
  }

  function CStr(s: seq<byte>): (c: seq<byte>)
    ensures |c| == StrLen(s)
    ensures NUL !in c
  {
    s[..StrLen(s)]
  }

  predicate Terminated(s: seq<byte>) {
    StrLen(s) < |s|
  }

  /** `strchr(s, '\n') != NULL` */
  predicate HasNewline(s: seq<byte>) {
    NEWLINE in CStr(s)
  }

  /** `strcat(block, src)`, which needs room for both strings and one terminator. */
  function StrCat(block: seq<byte>, src: seq<byte>): (r: seq<byte>)
    requires Terminated(block)
    requires StrLen(block) + StrLen(src) + 1 <= |block|
    ensures |r| == |block|
    ensures Terminated(r)
    ensures CStr(r) == CStr(block) + CStr(src)
  {
    var joined := CStr(block) + CStr(src);
    var r := joined + [NUL] + block[|joined| + 1..];
    StrLenIs(r, |joined|);
    assert r[..|joined|] == joined;
    r
  }

  lemma StrLenIs(s: seq<byte>, n: nat)
    requires n <= |s|
    requires forall i :: 0 <= i < n ==> s[i] != NUL
    requires n < |s| ==> s[n] == NUL
    ensures StrLen(s) == n
  {
  }

  /** `strcat` reads its source as a string. */
  lemma SameStringSameCat(block: seq<byte>, x: seq<byte>, y: seq<byte>)
    requires CStr(x) == CStr(y)
    requires Terminated(block) && StrLen(block) + StrLen(x) + 1 <= |block|
    ensures StrLen(x) == StrLen(y) && StrCat(block, x) == StrCat(block, y)
  {
    assert |CStr(x)| == |CStr(y)|;
  }

  /** What follows the first NUL does not matter; a string without one continues. */
  lemma CStrAppend(a: seq<byte>, b: seq<byte>)
    ensures CStr(a + b) == if Terminated(a) then CStr(a) else a + CStr(b)
  {
    if Terminated(a) {
      StrLenIs(a + b, StrLen(a));
    } else {
      StrLenIs(a + b, |a| + StrLen(b));
      assert (a + b)[..|a| + StrLen(b)] == a + CStr(b);
    }
  }

  lemma CStrOfClean(s: seq<byte>)
    requires NUL !in s
    ensures CStr(s) == s && StrLen(s) == |s|
  {
    StrLenIs(s, |s|);
  }

  /** `strncpy(dst, src, n)`: the string of `src`, cut or padded with NULs to `n`. */
  function StrNCpy(src: seq<byte>, n: nat): (r: seq<byte>)
    ensures |r| == n
  {
    if StrLen(src) >= n then src[..n] else CStr(src) + Zeros(n - StrLen(src))
  }

  lemma ZeroPadding(s: seq<byte>, n: nat)
    ensures CStr(s + Zeros(n)) == CStr(s) && StrLen(s + Zeros(n)) == StrLen(s)
    ensures n > 0 ==> Terminated(s + Zeros(n))
  {
    CStrAppend(s, Zeros(n));
    if n > 0 {
      StrLenIs(Zeros(n), 0);
    }
  }

  // ----- Sums

  function Sum(ns: seq<nat>): nat {
    if ns == [] then 0 else ns[0] + Sum(ns[1..])
  }

  lemma {:induction false} SumAppend(a: seq<nat>, b: seq<nat>)
    ensures Sum(a + b) == Sum(a) + Sum(b)
  {
    if a == [] {
      assert a + b == b;
    } else {
      SumAppend(a[1..], b);
      assert (a + b)[1..] == a[1..] + b;
    }
  }

  lemma SumSplit(ns: seq<nat>, i: nat)
    requires i <= |ns|
    ensures Sum(ns) == Sum(ns[..i]) + Sum(ns[i..])
  {
    SumAppend(ns[..i], ns[i..]);
    assert ns == ns[..i] + ns[i..];
  }

  lemma SumSnoc(ns: seq<nat>, i: nat)
    requires i < |ns|
    ensures Sum(ns[..i + 1]) == Sum(ns[..i]) + ns[i]
  {
    assert ns[..i + 1] == ns[..i] + [ns[i]];
    SumAppend(ns[..i], [ns[i]]);
  }

  lemma {:induction false} SumZeros(ns: seq<nat>)
    requires forall i :: 0 <= i < |ns| ==> ns[i] == 0
    ensures Sum(ns) == 0
  {
    if ns != [] {
      SumZeros(ns[1..]);
    }
  }

  // ----- Concatenation

  /** Several byte strings laid end to end. */
  function Flat(parts: seq<seq<byte>>): seq<byte> {
    if parts == [] then [] else parts[0] + Flat(parts[1..])
  }

  lemma {:induction false} FlatAppend(a: seq<seq<byte>>, b: seq<seq<byte>>)
    ensures Flat(a + b) == Flat(a) + Flat(b)
  {
    if a == [] {
      assert a + b == b;
    } else {
      FlatAppend(a[1..], b);
      assert (a + b)[1..] == a[1..] + b;
      assert a[0] + (Flat(a[1..]) + Flat(b)) == Flat(a) + Flat(b);
    }
  }

  lemma FlatSnoc(parts: seq<seq<byte>>, last: seq<byte>)
    ensures Flat(parts + [last]) == Flat(parts) + last
  {
    FlatAppend(parts, [last]);
    assert Flat([last]) == last + Flat([]);
  }

  /** Splitting before and after part `i`. */
  lemma {:induction false} FlatSplit(parts: seq<seq<byte>>, i: nat)
    requires i < |parts|
    ensures Flat(parts[..i + 1]) == Flat(parts[..i]) + parts[i]
    ensures Flat(parts) == Flat(parts[..i]) + parts[i] + Flat(parts[i + 1..])
  {
    FlatSnoc(parts[..i], parts[i]);
    assert parts[..i] + [parts[i]] == parts[..i + 1];
    FlatAppend(parts[..i + 1], parts[i + 1..]);
    assert parts[..i + 1] + parts[i + 1..] == parts;
  }

  function Lengths(parts: seq<seq<byte>>): (ns: seq<nat>)
    ensures |ns| == |parts|
    ensures forall i :: 0 <= i < |parts| ==> ns[i] == |parts[i]|
  {
    seq(|parts|, i requires 0 <= i < |parts| => |parts[i]|)
  }

  lemma {:induction false} FlatLength(parts: seq<seq<byte>>)
    ensures |Flat(parts)| == Sum(Lengths(parts))
  {
    if parts != [] {
      FlatLength(parts[1..]);
      assert Lengths(parts)[1..] == Lengths(parts[1..]);
    }
  }

  /** Position `pos` of the concatenation is byte `inner` of part `i`. */
  ghost predicate At(parts: seq<seq<byte>>, pos: nat, i: nat, inner: nat) {
    && i < |parts|
    && inner < |parts[i]|
    && pos == |Flat(parts[..i])| + inner
  }

  lemma FlatMonotone(parts: seq<seq<byte>>, i: nat, j: nat)
    requires i <= j <= |parts|
    ensures |Flat(parts[..i])| <= |Flat(parts[..j])|
  {
    FlatAppend(parts[..i], parts[i..j]);
    assert parts[..j] == parts[..i] + parts[i..j];
  }

  /** `At` pins down one part and one inner offset, and the byte found there is
      the byte of the concatenation. */
  lemma AtFacts(parts: seq<seq<byte>>, pos: nat, i: nat, inner: nat)
    requires At(parts, pos, i, inner)
    ensures pos < |Flat(parts)|
    ensures Flat(parts)[pos] == parts[i][inner]
    ensures forall j: nat, k: nat :: At(parts, pos, j, k) ==> j == i && k == inner
    ensures |Flat(parts[..i + 1])| == pos + |parts[i]| - inner <= |Flat(parts)|
    ensures parts[i][inner..] == Flat(parts)[pos..|Flat(parts[..i + 1])|]
  {
    FlatSplit(parts, i);
    forall j: nat, k: nat | At(parts, pos, j, k) ensures j == i && k == inner {
      FlatSplit(parts, j);
      if j < i {
        FlatMonotone(parts, j + 1, i);
      } else if i < j {
        FlatMonotone(parts, i + 1, j);
      }
    }
  }

  /** Which part holds position `pos` (none: the number of parts). */
  function PartAt(parts: seq<seq<byte>>, pos: nat): (i: nat)
    ensures i <= |parts|
  {
    if parts == [] || pos < |parts[0]| then 0
    else 1 + PartAt(parts[1..], pos - |parts[0]|)
  }

  lemma {:induction false} PartAtFacts(parts: seq<seq<byte>>, pos: nat)
    ensures PartAt(parts, pos) < |parts| <==> pos < |Flat(parts)|
    ensures pos < |Flat(parts)| ==>
              var i := PartAt(parts, pos);
              |Flat(parts[..i])| <= pos && At(parts, pos, i, pos - |Flat(parts[..i])|)
  {
    if parts != [] && pos >= |parts[0]| {
      PartAtFacts(parts[1..], pos - |parts[0]|);
      if pos < |Flat(parts)| {
        var j := PartAt(parts[1..], pos - |parts[0]|);
        assert parts[..j + 1][1..] == parts[1..][..j];
      }
    }
  }
}
