/** Bytes, C strings, big-endian integers and the one list operation every
    unlinking loop of the broker performs: removing a first occurrence. */
module Bytes {

  newtype byte = x: int | 0 <= x < 256
  type bytes = seq<byte>

  datatype Option<+T> = None | Some(value: T)

  const NUL: byte := 0

  /** The C string that starts a buffer: everything before the first NUL. */
  function CString(b: bytes): (s: bytes)
    ensures |s| <= |b| && s == b[..|s|] && NUL !in s
    ensures |s| < |b| ==> b[|s|] == NUL
  {
    if b == [] || b[0] == NUL then []
    else
      var s := CString(b[1..]);
      [b[0]] + s
  }

  /** The prefix a buffer shares with its C string is unique. */
  lemma CStringUnique(b: bytes, k: nat)
    requires k <= |b| && NUL !in b[..k] && (k < |b| ==> b[k] == NUL)
    ensures CString(b) == b[..k]
  {
    var s := CString(b);
    assert forall i | 0 <= i < k :: b[..k][i] == b[i];
    assert forall i | 0 <= i < |s| :: s[i] == b[i];
    assert |s| == k;
  }

  /** Reading a C string stops at the first byte 0, or where the buffer ends. */
  lemma {:induction false} CStringStops(x: bytes, rest: bytes)
    requires 0 !in x && (rest == [] || rest[0] == 0)
    ensures CString(x + rest) == x
  {
    if x == [] {
      AppendNothing(rest);
    } else {
      AppendTail(x, rest);
      CStringStops(x[1..], rest);
      HeadTail(x);
    }
  }

  function U16(b: bytes): (n: nat)
    requires 2 <= |b|
    ensures n < 0x1_0000
  {
    b[0] as nat * 0x100 + b[1] as nat
  }

  function U32(b: bytes): (n: nat)
    requires 4 <= |b|
    ensures n < 0x1_0000_0000
  {
    U16(b) * 0x1_0000 + U16(b[2..])
  }

  /** `htons`, as the two bytes it puts on the wire. */
  function Put16(n: nat): (b: bytes)
    requires n < 0x1_0000
    ensures |b| == 2 && U16(b) == n
  {
    [(n / 0x100) as byte, (n % 0x100) as byte]
  }

  /** `htonl`, as the four bytes it puts on the wire. */
  function Put32(n: nat): (b: bytes)
    requires n < 0x1_0000_0000
    ensures |b| == 4 && U32(b) == n
  {
    var b := Put16(n / 0x1_0000) + Put16(n % 0x1_0000);
    assert b[2..] == Put16(n % 0x1_0000);
    b
  }

  // ------------------------------------------------------------------
  // Sequence facts, each in a context of its own

  lemma AppendNothing<T>(s: seq<T>)
    ensures s + [] == s && [] + s == s
  {
  }

  lemma AppendTail<T>(a: seq<T>, b: seq<T>)
    requires a != []
    ensures (a + b)[0] == a[0] && (a + b)[1..] == a[1..] + b
  {
  }

  lemma AppendAssoc<T>(a: seq<T>, b: seq<T>, c: seq<T>)
    ensures a + (b + c) == (a + b) + c
  {
  }

  lemma ConsTail<T>(x: T, s: seq<T>)
    ensures ([x] + s)[0] == x && ([x] + s)[1..] == s
  {
  }

  lemma ConsInit<T>(x: T, s: seq<T>)
    requires s != []
    ensures ([x] + s)[..|s|] == [x] + s[..|s| - 1] && ([x] + s)[|s|] == s[|s| - 1]
  {
  }

  lemma HeadTail<T>(s: seq<T>)
    requires s != []
    ensures s == [s[0]] + s[1..]
  {
  }

  lemma InitLast<T>(s: seq<T>)
    requires s != []
    ensures s == s[..|s| - 1] + [s[|s| - 1]]
  {
  }

  lemma SplitAt<T>(s: seq<T>, n: nat)
    requires n <= |s|
    ensures s == s[..n] + s[n..]
  {
  }

  lemma SplitAtPrefix<T>(a: seq<T>, s: seq<T>)
    requires a <= s
    ensures s == a + s[|a|..]
  {
  }

  lemma SplitPast<T>(s: seq<T>, n: nat)
    requires n < |s|
    ensures s == s[..n + 1] + s[n..][1..]
  {
  }

  lemma SplitTail<T>(s: seq<T>, i: nat, j: nat)
    requires i <= j <= |s|
    ensures s[i..] == s[i..j] + s[j..]
  {
  }

  lemma PrefixOfPrefix<T>(s: seq<T>, n: nat, k: nat)
    requires k <= n <= |s|
    ensures s[..n][..k] == s[..k]
  {
  }

  /** The part of `s` from `j` to `k`, and what follows it, seen from `j`. */
  lemma WindowAt<T>(s: seq<T>, j: nat, k: nat)
    requires j <= k <= |s|
    ensures s[..k][j..] == s[j..][..k - j] && s[k..] == s[j..][k - j..]
  {
  }

  lemma AppendPair<T>(s: seq<T>, x: T, y: T)
    ensures s + [x] + [y] == s + [x, y]
  {
  }

  lemma Whole<T>(s: seq<T>)
    ensures s[..|s|] == s && s[0..] == s
  {
  }

  lemma Snoc<T>(s: seq<T>, i: nat)
    requires i < |s|
    ensures s[..i + 1] == s[..i] + [s[i]]
  {
  }

  lemma SnocParts<T>(s: seq<T>, x: T)
    ensures |s + [x]| == |s| + 1 && (s + [x])[..|s|] == s && (s + [x])[|s|] == x
  {
  }

  lemma SliceStep<T>(s: seq<T>, i: nat)
    requires i < |s|
    ensures s[i..] != [] && s[i..][0] == s[i] && s[i..][1..] == s[i + 1..]
  {
  }

  /** The sequences of a sequence, one after the other. */
  function Concat<T>(parts: seq<seq<T>>): seq<T> {
    if parts == [] then [] else parts[0] + Concat(parts[1..])
  }

  lemma {:induction false} ConcatSnoc<T>(parts: seq<seq<T>>, last: seq<T>)
    ensures Concat(parts + [last]) == Concat(parts) + last
  {
    if parts == [] {
      assert parts + [last] == [last] && [last][1..] == [];
      AppendNothing(last);
    } else {
      AppendTail(parts, [last]);
      ConcatSnoc(parts[1..], last);
      AppendAssoc(parts[0], Concat(parts[1..]), last);
    }
  }

  lemma LastUpdateWins<K, V>(m: map<K, V>, k: K, a: V, b: V)
    ensures m[k := a][k := b] == m[k := b]
    ensures k in m ==> m[k := m[k]] == m
  {
  }

  /** `s` without the first occurrence of `x`. */
  function RemoveFirst<T(==)>(s: seq<T>, x: T): (r: seq<T>)
    ensures multiset(r) == multiset(s) - multiset{x}
    ensures x !in s ==> r == s
  {
    if s == [] then []
    else if s[0] == x then
      assert s == [x] + s[1..];
      s[1..]
    else
      HeadTail(s);
      [s[0]] + RemoveFirst(s[1..], x)
  }

  lemma RemoveHead<T>(s: seq<T>, x: T)
    ensures RemoveFirst([x] + s, x) == s
  {
    ConsTail(x, s);
  }

  lemma {:induction false} RemoveFirstLength<T>(s: seq<T>, x: T)
    ensures |RemoveFirst(s, x)| == if x in s then |s| - 1 else |s|
  {
    if s != [] && s[0] != x {
      RemoveFirstLength(s[1..], x);
    }
  }

  /** Cutting out the cell where a forward scan stops removes the first occurrence. */
  lemma {:induction false} RemoveFirstAt<T>(s: seq<T>, x: T, i: nat)
    requires i < |s| && s[i] == x && x !in s[..i]
    ensures RemoveFirst(s, x) == s[..i] + s[i + 1..]
  {
    if i > 0 {
      var t := s[1..];
      CutTail(s, i);
      RemoveFirstAt(t, x, i - 1);
      AppendAssoc([s[0]], t[..i - 1], t[i..]);
    } else {
      AppendNothing(s[1..]);
    }
  }

  lemma CutTail<T>(s: seq<T>, i: nat)
    requires 0 < i < |s|
    ensures s[..i] == [s[0]] + s[1..][..i - 1] && s[i + 1..] == s[1..][i..]
  {
  }
}
