/** itoa, strrev and the number conversions of printf (student-distrib/lib.c). */
module Numerals {
  import opened Bytes
  import opened Division
  import opened Support

  type UInt32 = n: int | 0 <= n < 0x1_0000_0000

  const LOOKUP := "0123456789ABCDEFGHIJKLMNOPQRSTUVWXYZ"
  const MINUS: Byte := 45
  const DIGIT_0: Byte := 48

  /** The character of a digit. */
  function DigitChar(d: nat): Byte
    requires d < 36
  {
    if d < 10 then DIGIT_0 + d else 65 + (d - 10)
  }

  /** The digit of a character. */
  function DigitOf(c: Byte): nat {
    if DIGIT_0 <= c < DIGIT_0 + 10 then c - DIGIT_0 else if 65 <= c < 91 then c - 65 + 10 else 36
  }

  lemma LookupIsDigitChar(d: nat)
    requires d < 36
    ensures |LOOKUP| == 36 && LOOKUP[d] as int == DigitChar(d) && DigitOf(DigitChar(d)) == d && DigitChar(d) != NUL
  {
  }

  /** The positional value of a string of digit characters, most significant first. */
  function ValueOf(s: seq<Byte>, radix: nat): nat
    decreases |s|
  {
    if s == [] then 0 else ValueOf(s[..|s| - 1], radix) * radix + DigitOf(s[|s| - 1])
  }

  lemma Shrinks(n: nat, radix: nat)
    requires radix >= 2 && n > 0
    ensures 0 <= n / radix < n && 0 <= n % radix < radix
  {
    var q, d := Divide(n, radix);
    Monotone(2, radix, q);
  }

  /** The digits of a number, least significant first. */
  function Backwards(n: nat, radix: nat): (s: seq<Byte>)
    requires 2 <= radix <= 36
    ensures NulFree(s)
    decreases n
  {
    if n == 0 then []
    else
      Shrinks(n, radix);
      [DigitChar(n % radix)] + Backwards(n / radix, radix)
  }

  function Reversed(s: seq<Byte>): (r: seq<Byte>)
    ensures |r| == |s|
    ensures forall k :: 0 <= k < |s| ==> r[k] == s[|s| - 1 - k]
  {
    seq(|s|, i requires 0 <= i < |s| => s[|s| - 1 - i])
  }

  /** What itoa leaves in the buffer. */
  function Numeral(n: nat, radix: nat): (s: seq<Byte>)
    requires 2 <= radix <= 36
    ensures NulFree(s)
  {
    if n == 0 then [DIGIT_0] else Reversed(Backwards(n, radix))
  }

  /** A canonical numeral: digits of the radix, and no leading zero except for zero itself. */
  ghost predicate Canonical(s: seq<Byte>, radix: nat) {
    && s != [] && (forall k :: 0 <= k < |s| ==> DigitOf(s[k]) < radix)
    && (|s| > 1 ==> DigitOf(s[0]) != 0)
  }

  lemma FirstDigit(n: nat, radix: nat)
    requires 2 <= radix <= 36 && n > 0
    ensures 0 <= n % radix < radix && n / radix >= 0
    ensures Backwards(n, radix) == [DigitChar(n % radix)] + Backwards(n / radix, radix)
  {
    Shrinks(n, radix);
  }

  /** The numeral of `q * radix + d` is the numeral of `q` followed by the digit `d`. */
  lemma BackwardsStep(n: nat, radix: nat, q: nat, d: nat)
    requires 2 <= radix <= 36 && n > 0 && d < radix && n == q * radix + d
    ensures Reversed(Backwards(n, radix)) == Reversed(Backwards(q, radix)) + [DigitChar(d)]
    ensures q < n
  {
    DivisionIs(n, radix, q, d);
    Shrinks(n, radix);
    FirstDigit(n, radix);
  }

  lemma ValueSnoc(s: seq<Byte>, c: Byte, radix: nat)
    ensures ValueOf(s + [c], radix) == ValueOf(s, radix) * radix + DigitOf(c)
  {
    assert (s + [c])[..|s + [c]| - 1] == s;
  }

  lemma {:induction false} BackwardsIsCanonical(n: nat, radix: nat)
    requires 2 <= radix <= 36 && n > 0
    ensures ValueOf(Reversed(Backwards(n, radix)), radix) == n
    ensures Canonical(Reversed(Backwards(n, radix)), radix)
    ensures DigitOf(Reversed(Backwards(n, radix))[0]) != 0
    decreases n
  {
    var q, d := Divide(n, radix);
    LookupIsDigitChar(d);
    BackwardsStep(n, radix, q, d);
    var shorter := Reversed(Backwards(q, radix));
    ValueSnoc(shorter, DigitChar(d), radix);
    if q == 0 {
      assert shorter == [] && ValueOf(shorter, radix) == 0;
    } else {
      BackwardsIsCanonical(q, radix);
    }
  }

  /** The numeral is canonical and denotes the number, in every radix. */
  lemma NumeralRoundTrip(n: nat, radix: nat)
    requires 2 <= radix <= 36
    ensures ValueOf(Numeral(n, radix), radix) == n && Canonical(Numeral(n, radix), radix)
  {
    if n == 0 {
      ValueSnoc([], DIGIT_0, radix);
      assert [] + [DIGIT_0] == [DIGIT_0];
    } else {
      BackwardsIsCanonical(n, radix);
    }
  }

  /** A digit string with a non-zero first digit has a non-zero value. */
  lemma {:induction false} LeadingDigitCounts(s: seq<Byte>, radix: nat)
    requires 2 <= radix && s != [] && DigitOf(s[0]) != 0
    ensures ValueOf(s, radix) > 0
    decreases |s|
  {
    var shorter := s[..|s| - 1];
    if shorter != [] {
      LeadingDigitCounts(shorter, radix);
      Monotone(1, ValueOf(shorter, radix), radix);
    }
  }

  lemma DigitCharOf(c: Byte)
    requires DigitOf(c) < 36
    ensures DigitChar(DigitOf(c)) == c
  {
  }

  /** One digit more: the number `n` has the numeral of `q` followed by the digit `c`. */
  lemma NumeralSnoc(n: nat, q: nat, c: Byte, radix: nat)
    requires 2 <= radix <= 36 && DigitOf(c) < radix && n == q * radix + DigitOf(c)
    ensures q == 0 ==> Numeral(n, radix) == [c]
    ensures q > 0 ==> Numeral(n, radix) == Numeral(q, radix) + [c]
  {
    DigitCharOf(c);
    if n == 0 {
      ZeroProduct(q, radix);
    } else {
      BackwardsStep(n, radix, q, DigitOf(c));
    }
  }

  lemma ZeroProduct(q: nat, radix: nat)
    requires radix > 0 && q * radix == 0
    ensures q == 0
  {
    if q > 0 {
      Monotone(1, q, radix);
    }
  }

  /** The other direction: every canonical digit string is the numeral of its value, so
      numerals are unique. */
  lemma {:induction false} CanonicalIsNumeral(s: seq<Byte>, radix: nat)
    requires 2 <= radix <= 36 && Canonical(s, radix)
    ensures Numeral(ValueOf(s, radix), radix) == s
    decreases |s|
  {
    var shorter, c := s[..|s| - 1], s[|s| - 1];
    NumeralSnoc(ValueOf(s, radix), ValueOf(shorter, radix), c, radix);
    if shorter == [] {
      assert s == [c];
    } else {
      LeadingDigitCounts(shorter, radix);
      CanonicalIsNumeral(shorter, radix);
      assert s == shorter + [c];
    }
  }

  function Pow(b: nat, k: nat): nat {
    if k == 0 then 1 else b * Pow(b, k - 1)
  }

  lemma {:induction false} PowSquared(b: nat, k: nat)
    ensures Pow(b, 2 * k) == Pow(b * b, k)
  {
    if k > 0 {
      PowSquared(b, k - 1);
      assert Pow(b, 2 * k - 1) == b * Pow(b, 2 * k - 2);
    }
  }

  lemma WordSize()
    ensures Pow(2, 32) == 0x1_0000_0000 == Pow(16, 8)
  {
    PowSquared(2, 16);
    PowSquared(4, 8);
    PowSquared(16, 4);
    PowSquared(256, 2);
    assert Pow(0x1_0000, 2) == 0x1_0000 * Pow(0x1_0000, 1);
  }

  /** A number below `b` to the `k` has at most `k` digits in every radix from `b` up. */
  lemma {:induction false} DigitsAtMost(n: nat, radix: nat, b: nat, k: nat)
    requires 2 <= b <= radix <= 36 && n < Pow(b, k)
    ensures |Backwards(n, radix)| <= k
    decreases k
  {
    if n > 0 {
      var q, d := Divide(n, radix);
      BackwardsStep(n, radix, q, d);
      if Pow(b, k - 1) <= q {
        Monotone(Pow(b, k - 1), q, radix);
        Monotone(b, radix, Pow(b, k - 1));
      }
      DigitsAtMost(q, radix, b, k - 1);
    }
  }

  /** A 32-bit number has at most 32 digits in any radix, and at most 8 in radix 16. */
  lemma NumeralFits(n: UInt32, radix: nat)
    requires 2 <= radix <= 36
    ensures 1 <= |Numeral(n, radix)| <= 32
    ensures radix == 16 ==> |Numeral(n, radix)| <= 8
  {
    if n > 0 {
      WordSize();
      DigitsAtMost(n, radix, 2, 32);
      if radix == 16 {
        DigitsAtMost(n, radix, 16, 8);
      }
      BackwardsIsCanonical(n, radix);
    }
  }

  // ---------------------------------------------------------------- itoa and strrev

  /** The C string at `buf + o`. */
  ghost function Text(buf: array<Byte>, o: nat): seq<Byte>
    requires o <= buf.Length
    reads buf
  {
    StringAt(buf[..], o)
  }

  /** Byte `k` of `s` once the outer `beg` bytes on either side of the string at `o` are swapped. */
  function SwappedByte(s: seq<Byte>, o: nat, len: nat, beg: nat, k: nat): Byte
    requires beg <= len && o + len <= |s| && k < |s|
  {
    if o <= k < o + beg || o + len - beg <= k < o + len then s[2 * o + len - 1 - k] else s[k]
  }

  /** strrev: the C string at `s + o` is reversed in place, the rest untouched. */
  method Strrev(s: array<Byte>, o: nat)
    requires o <= s.Length && StringEnd(s[..], o) < s.Length
    modifies s
    ensures StringEnd(s[..], o) == old(StringEnd(s[..], o)) && Text(s, o) == Reversed(old(Text(s, o)))
    ensures forall k :: 0 <= k < o || o + |old(Text(s, o))| <= k < s.Length ==> s[k] == old(s[k])
  {
    ghost var before := s[..];
    var len := Strlen(s, o);
    var beg: int, end: int := 0, len - 1;
    while beg < end
      invariant 0 <= 2 * beg <= len && end == len - 1 - beg
      invariant forall k :: 0 <= k < s.Length ==> s[k] == SwappedByte(before, o, len, beg, k)
    {
      var tmp := s[o + end];
      s[o + end] := s[o + beg];
      s[o + beg] := tmp;
      beg := beg + 1;
      end := end - 1;
    }
    ReversedParts(before, s[..], o, len, beg);
    ReversedText(before, s[..], o, len);
  }

  lemma ReversedText(before: seq<Byte>, after: seq<Byte>, o: nat, len: nat)
    requires o + len < |before| == |after| && StringEnd(before, o) == o + len
    requires after[o..o + len] == Reversed(before[o..o + len]) && after[o + len] == before[o + len]
    ensures StringEnd(after, o) == o + len
    ensures StringAt(after, o) == Reversed(StringAt(before, o))
  {
    ReversedIsNulFree(StringAt(before, o));
    TextIs(after, o, Reversed(StringAt(before, o)));
  }

  /** The string is reversed, and the NUL after it stays. */
  lemma ReversedParts(before: seq<Byte>, after: seq<Byte>, o: nat, len: nat, beg: nat)
    requires |after| == |before| && beg <= len && len - 1 <= 2 * beg <= len && o + len < |before|
    requires forall k :: 0 <= k < |after| ==> after[k] == SwappedByte(before, o, len, beg, k)
    ensures after[o..o + len] == Reversed(before[o..o + len]) && after[o + len] == before[o + len]
  {
    Mirrored(before, after, o, len, beg);
    ReversedSlice(before, after, o, len);
    assert after[o + len] == SwappedByte(before, o, len, beg, o + len);
  }

  lemma ReversedIsNulFree(text: seq<Byte>)
    requires NulFree(text)
    ensures NulFree(Reversed(text))
  {
  }

  lemma Mirrored(before: seq<Byte>, after: seq<Byte>, o: nat, len: nat, beg: nat)
    requires |after| == |before| && beg <= len && len - 1 <= 2 * beg <= len && o + len < |before|
    requires forall k :: 0 <= k < |after| ==> after[k] == SwappedByte(before, o, len, beg, k)
    ensures forall k :: o <= k < o + len ==> after[k] == before[2 * o + len - 1 - k]
  {
  }

  lemma ReversedSlice(before: seq<Byte>, after: seq<Byte>, o: nat, len: nat)
    requires |after| == |before| && o + len <= |after|
    requires forall k :: o <= k < o + len ==> after[k] == before[2 * o + len - 1 - k]
    ensures after[o..o + len] == Reversed(before[o..o + len])
  {
  }

  lemma TextIs(s: seq<Byte>, o: nat, text: seq<Byte>)
    requires o + |text| < |s| && s[o..o + |text|] == text && NulFree(text) && s[o + |text|] == NUL
    ensures StringEnd(s, o) == o + |text| && StringAt(s, o) == text
  {
    forall k | o <= k < o + |text|
      ensures s[k] != NUL
    {
      assert s[k] == text[k - o];
    }
    StringEndIs(s, o, o + |text|);
  }

  /** One round of the division loop of itoa. */
  method NextDigit(value: nat, radix: nat) returns (c: Byte, rest: nat)
    requires 2 <= radix <= 36 && value > 0
    ensures rest < value && Backwards(value, radix) == [c] + Backwards(rest, radix)
  {
    Shrinks(value, radix);
    var i := value % radix;
    LookupIsDigitChar(i);
    c := LOOKUP[i] as int;
    rest := value / radix;
  }

  /** The division loop of itoa: the digits, least significant first. */
  method StoreDigits(value: nat, buf: array<Byte>, o: nat, radix: nat) returns (n: nat)
    requires 2 <= radix <= 36 && o + |Backwards(value, radix)| < buf.Length
    modifies buf
    ensures o + n < buf.Length && buf[o..o + n] == Backwards(value, radix)
    ensures buf[..o] == old(buf[..o])
  {
    var newval := value;
    n := 0;
    ghost var digits := Backwards(value, radix);
    while newval > 0
      invariant o + n < buf.Length && digits == buf[o..o + n] + Backwards(newval, radix)
      invariant buf[..o] == old(buf[..o])
      decreases newval
    {
      var c, rest := NextDigit(newval, radix);
      ghost var stored := buf[o..o + n];
      AppendStep(digits, stored, Backwards(newval, radix), [c], Backwards(rest, radix));
      buf[o + n] := c;
      assert buf[o..o + (n + 1)] == stored + [c];
      n := n + 1;
      newval := rest;
    }
  }

  /** The end of itoa: a NUL is put after the digits and the string is reversed. */
  method Finish(buf: array<Byte>, o: nat, n: nat)
    requires o + n < buf.Length && NulFree(buf[o..o + n])
    modifies buf
    ensures StringEnd(buf[..], o) < buf.Length && Text(buf, o) == Reversed(old(buf[o..o + n]))
    ensures buf[..o] == old(buf[..o])
  {
    buf[o + n] := NUL;
    TextIs(buf[..], o, old(buf[o..o + n]));
    Strrev(buf, o);
    TextIs(buf[..], o, Reversed(old(buf[o..o + n])));
  }

  /** itoa: the numeral, NUL-terminated, at `buf + o`. */
  method Itoa(value: UInt32, buf: array<Byte>, o: nat, radix: nat)
    requires 2 <= radix <= 36 && o + |Numeral(value, radix)| < buf.Length
    modifies buf
    ensures StringEnd(buf[..], o) < buf.Length && Text(buf, o) == Numeral(value, radix)
    ensures buf[..o] == old(buf[..o])
  {
    if value == 0 {
      buf[o] := DIGIT_0;
      buf[o + 1] := NUL;
      assert buf[o..o + 1] == [DIGIT_0];
      TextIs(buf[..], o, [DIGIT_0]);
      return;
    }
    var n := StoreDigits(value, buf, o, radix);
    Finish(buf, o, n);
  }

  // ---------------------------------------------------------------- the number cases of printf

  function Zeros(n: nat): (s: seq<Byte>)
    ensures |s| == n && forall k :: 0 <= k < n ==> s[k] == DIGIT_0
  {
    seq(n, i requires 0 <= i < n => DIGIT_0)
  }

  /** What `%#x` prints: the hexadecimal numeral padded to eight digits. */
  function Padded(n: UInt32): seq<Byte> {
    NumeralFits(n, 16);
    Zeros(8 - |Numeral(n, 16)|) + Numeral(n, 16)
  }

  /** Leading zeros do not change the value. */
  lemma {:induction false} ZerosInFront(k: nat, s: seq<Byte>, radix: nat)
    ensures ValueOf(Zeros(k) + s, radix) == ValueOf(s, radix)
    decreases k + |s|
  {
    var whole := Zeros(k) + s;
    if s != [] {
      assert whole[..|whole| - 1] == Zeros(k) + s[..|s| - 1];
      ZerosInFront(k, s[..|s| - 1], radix);
    } else if k > 0 {
      assert whole[..|whole| - 1] == Zeros(k - 1) + [];
      ZerosInFront(k - 1, [], radix);
    }
  }

  /** `%#x` prints exactly eight hexadecimal digits, and they denote the argument. */
  lemma PaddedIsEightDigits(n: UInt32)
    ensures |Padded(n)| == 8 && ValueOf(Padded(n), 16) == n
    ensures forall k :: 0 <= k < 8 ==> DigitOf(Padded(n)[k]) < 16
  {
    NumeralFits(n, 16);
    NumeralRoundTrip(n, 16);
    ZerosInFront(8 - |Numeral(n, 16)|, Numeral(n, 16), 16);
  }

  type Int32 = n: int | -0x8000_0000 <= n < 0x8000_0000

  /** Negation in 32 bits: the least value is its own negation. */
  function Negate(v: Int32): Int32 {
    if v == -0x8000_0000 then v else -v
  }

  /** The same 32 bits read as an unsigned number. */
  function AsUnsigned(v: Int32): UInt32 {
    if v < 0 then v + 0x1_0000_0000 else v
  }

  /** What `%d` prints. */
  function Decimal(v: Int32): seq<Byte> {
    if v < 0 then [MINUS] + Numeral(AsUnsigned(Negate(v)), 10) else Numeral(AsUnsigned(v), 10)
  }

  /** The number a signed decimal denotes. */
  function SignedValue(s: seq<Byte>): int {
    if s != [] && s[0] == MINUS then 0 - ValueOf(s[1..], 10) else ValueOf(s, 10)
  }

  /** `%d` denotes its argument, also the least one, whose negation wraps. */
  lemma DecimalRoundTrip(v: Int32)
    ensures SignedValue(Decimal(v)) == v
  {
    var n := AsUnsigned(if v < 0 then Negate(v) else v);
    NumeralRoundTrip(n, 10);
    if v < 0 {
      assert Decimal(v)[1..] == Numeral(n, 10);
    } else {
      assert DigitOf(Numeral(n, 10)[0]) < 10;
    }
  }

  /** And it has no leading zero and no stray sign: a minus only in front of a negative number. */
  lemma DecimalIsCanonical(v: Int32)
    ensures v < 0 ==> Decimal(v)[0] == MINUS && Canonical(Decimal(v)[1..], 10)
    ensures v >= 0 ==> Canonical(Decimal(v), 10)
  {
    var n := AsUnsigned(if v < 0 then Negate(v) else v);
    NumeralRoundTrip(n, 10);
    if v < 0 {
      assert Decimal(v)[1..] == Numeral(n, 10);
    }
  }

  lemma DigitCharacter(d: nat)
    requires d < 36
    ensures "0123456789ABCDEFGHIJKLMNOPQRSTUVWXYZ"[d] as int == DigitChar(d)
  {
  }

  /** The digits of every radix are these characters. */
  lemma Digits(d: nat)
    requires d < 36
    ensures Numeral(d, 36) == ["0123456789ABCDEFGHIJKLMNOPQRSTUVWXYZ"[d] as int]
  {
    DigitCharacter(d);
    LookupIsDigitChar(d);
    NumeralSnoc(d, 0, DigitChar(d), 36);
  }

  /** `%u` and `%x`. */
  method FormatUnsigned(value: UInt32, radix: nat) returns (text: seq<Byte>)
    requires radix == 10 || radix == 16
    ensures text == Numeral(value, radix)
  {
    NumeralFits(value, radix);
    var convBuf := new Byte[36];
    Itoa(value, convBuf, 0, radix);
    var len := Strlen(convBuf, 0);
    text := convBuf[..len];
  }

  /** `%#x`: the numeral is written at index 8 and zeros are put before it. */
  method FormatHex(value: UInt32) returns (text: seq<Byte>)
    ensures text == Padded(value)
  {
    NumeralFits(value, 16);
    var convBuf := new Byte[64];
    Itoa(value, convBuf, 8, 16);
    var startingIndex := Strlen(convBuf, 8);
    ghost var numeral := Numeral(value, 16);
    assert convBuf[8..8 + startingIndex] == numeral;
    var i := startingIndex;
    while i < 8
      invariant startingIndex <= i <= 8
      invariant forall k :: startingIndex <= k < i ==> convBuf[k] == DIGIT_0
      invariant convBuf[8..8 + startingIndex] == numeral
    {
      convBuf[i] := DIGIT_0;
      i := i + 1;
    }
    assert convBuf[startingIndex..8] == Zeros(8 - startingIndex);
    text := convBuf[startingIndex..8 + startingIndex];
    SliceSplit(convBuf[..], startingIndex, 8, 8 + startingIndex);
  }

  lemma SignThenText(buf: seq<Byte>, end: nat)
    requires 1 <= end <= |buf| && buf[0] == MINUS
    ensures buf[..end] == [MINUS] + buf[1..end]
  {
  }

  /** `%d`. */
  method FormatDecimal(value: Int32) returns (text: seq<Byte>)
    ensures text == Decimal(value)
  {
    var convBuf := new Byte[36];
    if value < 0 {
      var magnitude := AsUnsigned(Negate(value));
      NumeralFits(magnitude, 10);
      convBuf[0] := MINUS;
      Itoa(magnitude, convBuf, 1, 10);
      assert convBuf[..1][0] == MINUS;
      var len := Strlen(convBuf, 1);
      SignThenText(convBuf[..], StringEnd(convBuf[..], 1));
      text := convBuf[..1 + len];
    } else {
      text := FormatUnsigned(value, 10);
    }
  }
}
