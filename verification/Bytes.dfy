/** Bytes, the ASCII codes the sources name, and C strings held in byte sequences. */
module Bytes {
  type Byte = b: int | 0 <= b < 256

  const NUL: Byte := 0
  const BACKSPACE: Byte := 8
  const TAB: Byte := 9
  const NEWLINE: Byte := 10
  const RETURN: Byte := 13
  const ESCAPE: Byte := 27
  const SPACE: Byte := 32
  const COLON: Byte := 58

  function Min(a: int, b: int): int {
    if a <= b then a else b
  }

  ghost predicate NulFree(s: seq<Byte>) {
    forall k :: 0 <= k < |s| ==> s[k] != NUL
  }

  /** The index of the first NUL at or after `o`, or |s| when there is none. */
  function StringEnd(s: seq<Byte>, o: nat): (e: nat)
    requires o <= |s|
    ensures o <= e <= |s|
    ensures forall k :: o <= k < e ==> s[k] != NUL
    ensures e < |s| ==> s[e] == NUL
    decreases |s| - o
  {
    if o == |s| || s[o] == NUL then o
    else StringEnd(s, o + 1)
  }

  /** The C string that starts at `o`, without its NUL. */
  function StringAt(s: seq<Byte>, o: nat): seq<Byte>
    requires o <= |s|
  {
    s[o..StringEnd(s, o)]
  }

  /** The first `n` bytes of `s`, or all of it. */
  function Truncate(s: seq<Byte>, n: nat): seq<Byte> {
    s[..Min(n, |s|)]
  }

  /** Appending in two steps: what `before + rest` is once `rest` splits into `more + left`. */
  lemma AppendStep<T>(whole: seq<T>, before: seq<T>, rest: seq<T>, more: seq<T>, left: seq<T>)
    requires whole == before + rest && rest == more + left
    ensures whole == (before + more) + left
  {
  }

  lemma Associate<T>(a: seq<T>, b: seq<T>, c: seq<T>)
    ensures a + (b + c) == (a + b) + c
  {
  }

  lemma SplitAround<T>(s: seq<T>, i: nat)
    requires i < |s|
    ensures s == s[..i] + [s[i]] + s[i + 1..]
  {
  }

  /** Two adjacent slices make one. */
  lemma SliceSplit<T>(s: seq<T>, a: nat, b: nat, c: nat)
    requires a <= b <= c <= |s|
    ensures s[a..c] == s[a..b] + s[b..c]
  {
  }

  lemma DropSplit<T>(s: seq<T>, a: nat, b: nat)
    requires a <= b <= |s|
    ensures s[a..] == s[a..b] + s[b..]
  {
  }

  /** A NUL-free stretch followed by a NUL is the C string at its start. */
  lemma StringEndIs(s: seq<Byte>, o: nat, e: nat)
    requires o <= e < |s| && s[e] == NUL
    requires forall k :: o <= k < e ==> s[k] != NUL
    ensures StringEnd(s, o) == e
  {
  }
}
