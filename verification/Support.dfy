/** The user-level string routines of syscalls/ece391support.c that grep relies on. */
module Support {
  import opened Bytes

  /** The first NUL is the end of the string. */
  lemma AtEnd(s: seq<Byte>, o: nat, k: nat)
    requires o <= |s| && o <= k <= StringEnd(s, o) < |s|
    ensures s[k] == NUL <==> k == StringEnd(s, o)
  {
  }

  method Strlen(s: array<Byte>, o: nat) returns (len: nat)
    requires o <= s.Length && StringEnd(s[..], o) < s.Length
    ensures len == |StringAt(s[..], o)|
  {
    ghost var end := StringEnd(s[..], o);
    len := 0;
    while s[o + len] != NUL
      invariant o + len <= end
      decreases end - o - len
    {
      len := len + 1;
    }
  }

  /** Byte `k` of `s` once the `len` bytes at `src` are copied over those at `dst`. */
  function CopiedByte(s: seq<Byte>, dst: nat, src: nat, len: nat, k: nat): Byte
    requires dst <= src && src + len <= |s| && k < |s|
  {
    if dst <= k < dst + len then s[k + (src - dst)] else s[k]
  }

  /** The buffer once the first `len` bytes at `src` are copied to `dst`: what every byte is then. */
  function Copied(s: seq<Byte>, dst: nat, src: nat, len: nat): (r: seq<Byte>)
    requires dst <= src && src + len <= |s|
    ensures |r| == |s| && forall k :: 0 <= k < |s| ==> r[k] == CopiedByte(s, dst, src, len, k)
  {
    if len == 0 then s else Copied(s, dst, src, len - 1)[dst + len - 1 := s[src + len - 1]]
  }

  /** Copies the byte at `src + i` once those before it are copied. */
  method CopyByte(s: array<Byte>, dst: nat, src: nat, i: nat, ghost before: seq<Byte>) returns (c: Byte)
    requires dst <= src && src + i < |before| && s[..] == Copied(before, dst, src, i)
    modifies s
    ensures c == before[src + i] && s[..] == Copied(before, dst, src, i + 1)
  {
    ghost var now := s[..];
    assert now[src + i] == before[src + i];
    c := s[src + i];
    s[dst + i] := c;
    assert s[..] == now[dst + i := c];
  }

  /** Copies the C string at `src` down to `dst` in one buffer. The two ranges may overlap:
      a forward copy towards lower addresses reads every byte before it is overwritten. */
  method Strcpy(s: array<Byte>, dst: nat, src: nat)
    requires dst <= src <= s.Length && StringEnd(s[..], src) < s.Length
    modifies s
    ensures s[..] == Copied(old(s[..]), dst, src, old(StringEnd(s[..], src)) - src + 1)
  {
    ghost var before := s[..];
    ghost var end := StringEnd(before, src);
    assert Copied(before, dst, src, 0) == before;
    var i: nat := 0;
    var c := CopyByte(s, dst, src, i, before);
    AtEnd(before, src, src + i);
    while c != NUL
      invariant i <= end - src && (c == NUL <==> src + i == end)
      invariant s[..] == Copied(before, dst, src, i + 1)
      decreases end - i
    {
      i := i + 1;
      c := CopyByte(s, dst, src, i, before);
      AtEnd(before, src, src + i);
    }
  }

  /** Character `i` of a C string, or its NUL. */
  lemma CharacterAt(s: seq<Byte>, o: nat, i: nat)
    requires o <= |s| && StringEnd(s, o) < |s| && i <= |StringAt(s, o)|
    ensures o + i < |s| && (s[o + i] == NUL <==> i == |StringAt(s, o)|)
    ensures i < |StringAt(s, o)| ==> StringAt(s, o)[i] == s[o + i]
  {
    AtEnd(s, o, o + i);
  }

  /** One string ends, or they differ, behind `i` common characters. */
  lemma Differ(a: seq<Byte>, b: seq<Byte>, i: nat, n: nat)
    requires i < n && i <= |a| && i <= |b| && a[..i] == b[..i]
    requires if i == |a| then i < |b| else i < |b| ==> a[i] != b[i]
    ensures Truncate(a, n) != Truncate(b, n)
  {
    assert i < |a| ==> Truncate(a, n)[i] == a[i];
    assert i < |b| ==> Truncate(b, n)[i] == b[i];
  }

  /** Zero exactly when the two C strings agree on their first `n` bytes. */
  method Strncmp(s1: array<Byte>, o: nat, s2: seq<Byte>, n: nat) returns (r: int)
    requires o <= s1.Length && StringEnd(s1[..], o) < s1.Length
    requires StringEnd(s2, 0) < |s2|
    ensures r == 0 <==> Truncate(StringAt(s1[..], o), n) == Truncate(StringAt(s2, 0), n)
  {
    if n == 0 {
      return 0;
    }
    ghost var a := StringAt(s1[..], o);
    ghost var b := StringAt(s2, 0);
    var i := 0;
    CharacterAt(s1[..], o, i);
    CharacterAt(s2, 0, i);
    while s1[o + i] == s2[i]
      invariant i < n && i <= |a| && i <= |b| && o + i < s1.Length && i < |s2|
      invariant s1[o + i] == if i < |a| then a[i] else NUL
      invariant s2[i] == if i < |b| then b[i] else NUL
      invariant (s1[o + i] == NUL <==> i == |a|) && (s2[i] == NUL <==> i == |b|)
      invariant a[..i] == b[..i]
      decreases n - i
    {
      if s1[o + i] == NUL || i + 1 == n {
        return 0;
      }
      i := i + 1;
      CharacterAt(s1[..], o, i);
      CharacterAt(s2, 0, i);
    }
    Differ(a, b, i, n);
    r := s1[o + i] as int - s2[i] as int;
  }
}
