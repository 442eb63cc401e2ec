/** What `grep` should print, stated on the whole file at once. */
module GrepSpec {
  import opened Bytes

  const BUFSIZE := 1024

  ghost predicate OneLine(s: seq<Byte>) {
    forall k :: 0 <= k < |s| ==> s[k] != NEWLINE
  }

  /** The index of the first newline at or after `o`, or |text|. */
  function LineEnd(text: seq<Byte>, o: nat): (e: nat)
    requires o <= |text|
    ensures o <= e <= |text|
    ensures forall k :: o <= k < e ==> text[k] != NEWLINE
    ensures e < |text| ==> text[e] == NEWLINE
    decreases |text| - o
  {
    if o == |text| || text[o] == NEWLINE then o else LineEnd(text, o + 1)
  }

  /** What follows position `e`, without the newline that may stand there. */
  function After(text: seq<Byte>, e: nat): seq<Byte>
    requires e <= |text|
  {
    if e < |text| && text[e] == NEWLINE then text[e + 1..] else text[e..]
  }

  /** The lines of a text; an unterminated last line counts. */
  function Lines(text: seq<Byte>): (lines: seq<seq<Byte>>)
    ensures forall l :: l in lines ==> OneLine(l)
    decreases |text|
  {
    if text == [] then []
    else
      var e := LineEnd(text, 0);
      [text[..e]] + Lines(After(text, e))
  }

  /** `s` occurs in `line` at position `k`. */
  predicate OccursAt(line: seq<Byte>, s: seq<Byte>, k: nat) {
    k + |s| <= |line| && line[k..k + |s|] == s
  }

  /** A line is selected when the pattern occurs in it; the empty pattern selects nothing. */
  ghost predicate Selected(s: seq<Byte>, line: seq<Byte>) {
    s != [] && exists k: nat :: OccursAt(line, s, k)
  }

  ghost function Kept(s: seq<Byte>, line: seq<Byte>): seq<seq<Byte>> {
    if Selected(s, line) then [line] else []
  }

  /** Naive grep: keep the selected lines, in order. */
  ghost function Filter(s: seq<Byte>, lines: seq<seq<Byte>>): seq<seq<Byte>> {
    if lines == [] then [] else Kept(s, lines[0]) + Filter(s, lines[1..])
  }

  /** A byte read through a `char` pointer; char is signed for gcc on x86. */
  function AsChar(b: Byte): int {
    if b < 128 then b else b - 256
  }

  /** The first pattern character is a char and the text is unsigned bytes, so a pattern
      that starts with a byte from 128 on equals nothing. */
  predicate FoundAt(s: seq<Byte>, line: seq<Byte>, k: nat) {
    s != [] && AsChar(s[0]) == s[0] && OccursAt(line, s, k)
  }

  ghost predicate Found(s: seq<Byte>, line: seq<Byte>) {
    exists k: nat :: FoundAt(s, line, k)
  }

  lemma FoundIsSelected(s: seq<Byte>, line: seq<Byte>)
    ensures Found(s, line) <==> Selected(s, line) && s[0] < 128
  {
    if Selected(s, line) && s[0] < 128 {
      var k: nat :| OccursAt(line, s, k);
      assert FoundAt(s, line, k);
    }
  }

  ghost function Hits(s: seq<Byte>, line: seq<Byte>): seq<seq<Byte>> {
    if Found(s, line) then [line] else []
  }

  /** Grep on a text whose long lines are first cut into pieces of BUFSIZE bytes. */
  ghost function Wrapped(s: seq<Byte>, text: seq<Byte>): seq<seq<Byte>>
    decreases |text|
  {
    if text == [] then []
    else
      var n := Min(LineEnd(text, 0), BUFSIZE);
      Hits(s, text[..n]) + Wrapped(s, After(text, n))
  }

  /** The bytes printed for a list of selected lines: name, colon, line, newline. */
  function Report(fname: seq<Byte>, lines: seq<seq<Byte>>): seq<Byte> {
    if lines == [] then [] else fname + [COLON] + lines[0] + [NEWLINE] + Report(fname, lines[1..])
  }

  lemma LineEndIs(text: seq<Byte>, o: nat, e: nat)
    requires o <= e <= |text| && (e < |text| ==> text[e] == NEWLINE)
    requires forall k :: o <= k < e ==> text[k] != NEWLINE
    ensures LineEnd(text, o) == e
  {
  }

  lemma {:induction false} ReportConcat(fname: seq<Byte>, xs: seq<seq<Byte>>, ys: seq<seq<Byte>>)
    ensures Report(fname, xs + ys) == Report(fname, xs) + Report(fname, ys)
  {
    if xs == [] {
      assert xs + ys == ys;
    } else {
      ReportConcat(fname, xs[1..], ys);
      assert (xs + ys)[1..] == xs[1..] + ys;
    }
  }

  lemma ReportMore(base: seq<Byte>, fname: seq<Byte>, xs: seq<seq<Byte>>, ys: seq<seq<Byte>>)
    ensures base + Report(fname, xs) + Report(fname, ys) == base + Report(fname, xs + ys)
  {
    ReportConcat(fname, xs, ys);
  }

  /** A complete line that fits the buffer is one step of `Wrapped`. */
  lemma WrapLine(s: seq<Byte>, line: seq<Byte>, rest: seq<Byte>)
    requires OneLine(line) && |line| <= BUFSIZE
    ensures Wrapped(s, line + [NEWLINE] + rest) == Hits(s, line) + Wrapped(s, rest)
  {
    var text := line + [NEWLINE] + rest;
    LineEndIs(text, 0, |line|);
    assert text[..|line|] == line && After(text, |line|) == rest;
  }

  lemma WrapLastLine(s: seq<Byte>, line: seq<Byte>)
    requires OneLine(line) && |line| <= BUFSIZE
    ensures Wrapped(s, line) == Hits(s, line)
  {
    if line != [] {
      LineEndIs(line, 0, |line|);
      assert line[..|line|] == line && After(line, |line|) == [];
      assert Wrapped(s, []) == [];
    }
  }

  /** A full buffer without a newline is printed, or not, as a line of its own. */
  lemma WrapFullBuffer(s: seq<Byte>, piece: seq<Byte>, rest: seq<Byte>)
    requires OneLine(piece) && |piece| == BUFSIZE
    ensures Wrapped(s, piece + rest) == Hits(s, piece) + Wrapped(s, rest)
  {
    var text := piece + rest;
    assert LineEnd(text, 0) >= BUFSIZE;
    assert text[..BUFSIZE] == piece;
    if rest != [] && rest[0] == NEWLINE {
      assert After(text, BUFSIZE) == rest[1..];
      assert rest == [] + [NEWLINE] + rest[1..];
      WrapLine(s, [], rest[1..]);
      assert Hits(s, []) == [];
    } else {
      assert After(text, BUFSIZE) == rest;
    }
  }

  lemma {:induction false} WrappedAreShort(s: seq<Byte>, text: seq<Byte>)
    ensures forall l :: l in Wrapped(s, text) ==> |l| <= BUFSIZE
    decreases |text|
  {
    if text != [] {
      var n := Min(LineEnd(text, 0), BUFSIZE);
      WrappedAreShort(s, After(text, n));
    }
  }

  lemma {:induction false} FilterKeeps(s: seq<Byte>, lines: seq<seq<Byte>>, l: seq<Byte>)
    requires l in lines && Selected(s, l)
    ensures l in Filter(s, lines)
  {
    if l != lines[0] {
      FilterKeeps(s, lines[1..], l);
    }
  }

  lemma UnselectedSlice(s: seq<Byte>, line: seq<Byte>, lo: nat, hi: nat)
    requires lo <= hi <= |line| && !Selected(s, line)
    ensures !Selected(s, line[lo..hi])
  {
    if s != [] && Selected(s, line[lo..hi]) {
      var k: nat :| OccursAt(line[lo..hi], s, k);
      forall i | 0 <= i < |s|
        ensures line[lo + k..lo + k + |s|][i] == s[i]
      {
        assert line[lo..hi][k..k + |s|][i] == line[lo..hi][k + i];
      }
      assert OccursAt(line, s, lo + k);
    }
  }

  /** A first line that is not selected contributes nothing, however it is cut. */
  lemma {:induction false} WrapSkipsUnselected(s: seq<Byte>, text: seq<Byte>)
    requires text != [] && !Selected(s, text[..LineEnd(text, 0)])
    ensures Wrapped(s, text) == Wrapped(s, After(text, LineEnd(text, 0)))
    decreases |text|
  {
    var e := LineEnd(text, 0);
    var n := Min(e, BUFSIZE);
    UnselectedSlice(s, text[..e], 0, n);
    assert text[..e][0..n] == text[..n];
    if BUFSIZE < e {
      var rest := text[BUFSIZE..];
      LineEndIs(rest, 0, e - BUFSIZE);
      UnselectedSlice(s, text[..e], BUFSIZE, e);
      assert rest[..e - BUFSIZE] == text[..e][BUFSIZE..e];
      WrapSkipsUnselected(s, rest);
      assert After(rest, e - BUFSIZE) == After(text, e);
    }
  }

  /** A pattern whose first byte is 128 or above prints nothing. */
  lemma {:induction false} HighPatternPrintsNothing(s: seq<Byte>, text: seq<Byte>)
    requires s != [] && s[0] >= 128
    ensures Wrapped(s, text) == []
    decreases |text|
  {
    if text != [] {
      HighPatternPrintsNothing(s, After(text, Min(LineEnd(text, 0), BUFSIZE)));
    }
  }

  /** Every line that contains the pattern fits the buffer, and the pattern starts with an
      ASCII byte if there is such a line. */
  ghost predicate PlainHits(s: seq<Byte>, text: seq<Byte>) {
    forall l :: l in Lines(text) && Selected(s, l) ==> |l| <= BUFSIZE && s[0] < 128
  }

  /** The lines printed are those of naive grep exactly when no line above BUFSIZE bytes contains
      the pattern, and the pattern is empty, starts below 128 or occurs nowhere. */
  lemma WrappedIsFilter(s: seq<Byte>, text: seq<Byte>)
    ensures Wrapped(s, text) == Filter(s, Lines(text)) <==> PlainHits(s, text)
  {
    if l :| l in Lines(text) && Selected(s, l) && !(|l| <= BUFSIZE && s[0] < 128) {
      FilterKeeps(s, Lines(text), l);
      WrappedAreShort(s, text);
      if s[0] >= 128 {
        HighPatternPrintsNothing(s, text);
      }
    } else {
      WrappedIsFilterPlain(s, text);
    }
  }

  /** A line cut into pieces of BUFSIZE bytes; only the last may be shorter. */
  function Pieces(line: seq<Byte>): (pieces: seq<seq<Byte>>)
    ensures |pieces| >= 1 && |pieces[|pieces| - 1]| <= BUFSIZE
    ensures forall i :: 0 <= i < |pieces| - 1 ==> |pieces[i]| == BUFSIZE
    decreases |line|
  {
    if |line| <= BUFSIZE then [line] else [line[..BUFSIZE]] + Pieces(line[BUFSIZE..])
  }

  function Flat(pieces: seq<seq<Byte>>): seq<Byte> {
    if pieces == [] then [] else pieces[0] + Flat(pieces[1..])
  }

  lemma {:induction false} PiecesMakeLine(line: seq<Byte>)
    ensures Flat(Pieces(line)) == line
    decreases |line|
  {
    if |line| <= BUFSIZE {
      assert [line][1..] == [];
    } else {
      PiecesMakeLine(line[BUFSIZE..]);
      assert ([line[..BUFSIZE]] + Pieces(line[BUFSIZE..]))[1..] == Pieces(line[BUFSIZE..]);
    }
  }

  function AllPieces(lines: seq<seq<Byte>>): seq<seq<Byte>> {
    if lines == [] then [] else Pieces(lines[0]) + AllPieces(lines[1..])
  }

  /** The pieces in which the pattern is found. */
  ghost function FoundIn(s: seq<Byte>, pieces: seq<seq<Byte>>): seq<seq<Byte>> {
    if pieces == [] then [] else Hits(s, pieces[0]) + FoundIn(s, pieces[1..])
  }

  lemma PiecesOfLonger(lines: seq<seq<Byte>>)
    requires lines != [] && |lines[0]| > BUFSIZE
    ensures AllPieces(lines) == [lines[0][..BUFSIZE]] + AllPieces([lines[0][BUFSIZE..]] + lines[1..])
  {
    assert ([lines[0][BUFSIZE..]] + lines[1..])[1..] == lines[1..];
    Associate([lines[0][..BUFSIZE]], Pieces(lines[0][BUFSIZE..]), AllPieces(lines[1..]));
  }

  lemma FoundInOneMore(s: seq<Byte>, piece: seq<Byte>, pieces: seq<seq<Byte>>)
    ensures FoundIn(s, [piece] + pieces) == Hits(s, piece) + FoundIn(s, pieces)
  {
    assert ([piece] + pieces)[1..] == pieces;
  }

  /** The lines of a text whose first line is cut after BUFSIZE bytes. */
  lemma LinesOfRest(text: seq<Byte>)
    requires LineEnd(text, 0) > BUFSIZE
    ensures After(text, BUFSIZE) == text[BUFSIZE..] && Lines(text) != [] && |Lines(text)[0]| > BUFSIZE
    ensures Lines(text[BUFSIZE..]) == [Lines(text)[0][BUFSIZE..]] + Lines(text)[1..]
  {
    var e, rest := LineEnd(text, 0), text[BUFSIZE..];
    LineEndIs(rest, 0, e - BUFSIZE);
    assert rest[..e - BUFSIZE] == text[..e][BUFSIZE..];
    assert After(rest, e - BUFSIZE) == After(text, e);
  }

  /** For every text, whatever its lines: what is printed are the pieces of its lines, in order, in
      which the pattern is found. */
  lemma {:induction false} WrappedIsPieces(s: seq<Byte>, text: seq<Byte>)
    ensures Wrapped(s, text) == FoundIn(s, AllPieces(Lines(text)))
    decreases |text|
  {
    if text != [] {
      var e := LineEnd(text, 0);
      WrappedIsPieces(s, After(text, Min(e, BUFSIZE)));
      if e <= BUFSIZE {
        assert Lines(text)[1..] == Lines(After(text, e)) && Pieces(text[..e]) == [text[..e]];
        FoundInOneMore(s, text[..e], AllPieces(Lines(After(text, e))));
      } else {
        LinesOfRest(text);
        PiecesOfLonger(Lines(text));
        FoundInOneMore(s, text[..BUFSIZE], AllPieces(Lines(text[BUFSIZE..])));
        assert Lines(text)[0][..BUFSIZE] == text[..BUFSIZE];
      }
    }
  }

  /** One byte too many: a matching line of BUFSIZE + 1 bytes is not printed as one line. */
  lemma LongLineIsCut(line: seq<Byte>)
    requires line == seq(BUFSIZE + 1, _ => 97)
    ensures Lines(line) == [line] && Wrapped([97], line) != Filter([97], Lines(line))
  {
    LineEndIs(line, 0, |line|);
    assert line[..|line|] == line && Lines([]) == [];
    assert OccursAt(line, [97], 0);
    WrappedIsFilter([97], line);
    assert line in Lines(line) && Selected([97], line);
  }

  /** A file that consists of the pattern, one byte above 127: nothing is printed. */
  lemma HighByteIsMissed(text: seq<Byte>)
    requires text == [195]
    ensures Filter(text, Lines(text)) == [text] && Wrapped(text, text) == []
  {
    LineEndIs(text, 0, 1);
    assert text[..1] == text && Lines([]) == [] && Lines(text) == [text];
    assert OccursAt(text, text, 0);
    assert Filter(text, []) == [] && [text][1..] == [];
    HighPatternPrintsNothing(text, text);
  }

  lemma {:induction false} WrappedIsFilterPlain(s: seq<Byte>, text: seq<Byte>)
    requires PlainHits(s, text)
    ensures Wrapped(s, text) == Filter(s, Lines(text))
    decreases |text|
  {
    if text != [] {
      var e := LineEnd(text, 0);
      var rest := After(text, e);
      assert Lines(text)[0] == text[..e] && Lines(text)[1..] == Lines(rest);
      FoundIsSelected(s, text[..e]);
      if e > BUFSIZE {
        WrapSkipsUnselected(s, text);
      }
      WrappedIsFilterPlain(s, rest);
    }
  }

  ghost predicate AllOneLine(lines: seq<seq<Byte>>) {
    forall l :: l in lines ==> OneLine(l)
  }

  lemma {:induction false} WrappedAreLines(s: seq<Byte>, text: seq<Byte>)
    ensures AllOneLine(Wrapped(s, text))
    decreases |text|
  {
    if text != [] {
      WrappedAreLines(s, After(text, Min(LineEnd(text, 0), BUFSIZE)));
    }
  }

  lemma {:induction false} FilterAreLines(s: seq<Byte>, lines: seq<seq<Byte>>)
    requires AllOneLine(lines)
    ensures AllOneLine(Filter(s, lines))
  {
    if lines != [] {
      assert lines[0] in lines;
      FilterAreLines(s, lines[1..]);
    }
  }

  /** The printed bytes determine the lines: what is printed differs when the lines do. */
  lemma {:induction false} ReportInjective(fname: seq<Byte>, xs: seq<seq<Byte>>, ys: seq<seq<Byte>>)
    requires AllOneLine(xs) && AllOneLine(ys) && Report(fname, xs) == Report(fname, ys)
    ensures xs == ys
  {
    if xs != [] && ys != [] {
      assert xs[0] in xs && ys[0] in ys;
      FirstLineIs(fname, xs[0], Report(fname, xs[1..]), ys[0], Report(fname, ys[1..]));
      ReportInjective(fname, xs[1..], ys[1..]);
      assert xs == [xs[0]] + xs[1..] && ys == [ys[0]] + ys[1..];
    }
  }

  lemma FirstLineIs(fname: seq<Byte>, x: seq<Byte>, more: seq<Byte>, y: seq<Byte>, more': seq<Byte>)
    requires OneLine(x) && OneLine(y)
    requires fname + [COLON] + x + [NEWLINE] + more == fname + [COLON] + y + [NEWLINE] + more'
    ensures x == y && more == more'
  {
    var whole, o := fname + [COLON] + x + [NEWLINE] + more, |fname| + 1;
    LineEndIs(whole, o, o + |x|);
    LineEndIs(whole, o, o + |y|);
    assert whole[o..o + |x|] == x && whole[o..o + |y|] == y;
    assert whole[o + |x| + 1..] == more && whole[o + |y| + 1..] == more';
  }

  /** What is printed, read as a text: one line for each selected line, the file's name, a colon and
      the line itself. */
  lemma {:induction false} ReportLines(fname: seq<Byte>, lines: seq<seq<Byte>>)
    requires OneLine(fname) && AllOneLine(lines)
    ensures Lines(Report(fname, lines)) == seq(|lines|, i requires 0 <= i < |lines| => fname + [COLON] + lines[i])
    ensures lines != [] ==> Report(fname, lines)[|Report(fname, lines)| - 1] == NEWLINE
  {
    if lines != [] {
      var first, rest := fname + [COLON] + lines[0], Report(fname, lines[1..]);
      var text := Report(fname, lines);
      assert lines[0] in lines;
      assert text == first + [NEWLINE] + rest;
      LineEndIs(text, 0, |first|);
      assert text[..|first|] == first && After(text, |first|) == rest;
      ReportLines(fname, lines[1..]);
      if lines[1..] == [] {
        assert rest == [];
      }
    }
  }

  /** Lines put together again, each with a newline. */
  function Joined(lines: seq<seq<Byte>>): seq<Byte> {
    if lines == [] then [] else lines[0] + [NEWLINE] + Joined(lines[1..])
  }

  /** The newline that is missing at the end of a text. */
  function Ending(text: seq<Byte>): seq<Byte> {
    if text == [] || text[|text| - 1] == NEWLINE then [] else [NEWLINE]
  }

  lemma EndingOfRest(text: seq<Byte>, line: seq<Byte>, rest: seq<Byte>)
    requires text == line + [NEWLINE] + rest
    ensures Ending(text) == Ending(rest)
  {
    assert text[|text| - 1] == if rest == [] then NEWLINE else rest[|rest| - 1];
  }

  lemma JoinFirst(line: seq<Byte>, rest: seq<Byte>, lines: seq<seq<Byte>>)
    requires Joined(lines) == rest + Ending(rest)
    ensures Joined([line] + lines) == line + [NEWLINE] + rest + Ending(line + [NEWLINE] + rest)
  {
    EndingOfRest(line + [NEWLINE] + rest, line, rest);
    assert ([line] + lines)[1..] == lines;
    Associate(line + [NEWLINE], rest, Ending(rest));
  }

  lemma SplitFirst(text: seq<Byte>, e: nat)
    requires e == LineEnd(text, 0) < |text|
    ensures text == text[..e] + [NEWLINE] + text[e + 1..] && Lines(text) == [text[..e]] + Lines(text[e + 1..])
  {
    SplitAround(text, e);
    assert After(text, e) == text[e + 1..];
  }

  lemma JoinLast(line: seq<Byte>)
    requires OneLine(line) && line != []
    ensures Lines(line) == [line] && Joined(Lines(line)) == line + Ending(line)
  {
    LineEndIs(line, 0, |line|);
    assert line[..|line|] == line && After(line, |line|) == [] && Lines([]) == [];
    assert [line][1..] == [] && line[|line| - 1] != NEWLINE;
  }

  /** The lines of a text make it up, but for a newline missing at its end. */
  lemma {:induction false} LinesJoin(text: seq<Byte>)
    ensures Joined(Lines(text)) == text + Ending(text)
    decreases |text|
  {
    if text != [] {
      var e := LineEnd(text, 0);
      if e < |text| {
        SplitFirst(text, e);
        LinesJoin(text[e + 1..]);
        JoinFirst(text[..e], text[e + 1..], Lines(text[e + 1..]));
      } else {
        JoinLast(text);
      }
    }
  }

  /** The filter keeps or drops each line by itself, in order. */
  lemma {:induction false} FilterConcat(s: seq<Byte>, xs: seq<seq<Byte>>, ys: seq<seq<Byte>>)
    ensures Filter(s, xs + ys) == Filter(s, xs) + Filter(s, ys)
  {
    if xs == [] {
      assert xs + ys == ys;
    } else {
      FilterConcat(s, xs[1..], ys);
      assert (xs + ys)[1..] == xs[1..] + ys && (xs + ys)[0] == xs[0];
      Associate(Kept(s, xs[0]), Filter(s, xs[1..]), Filter(s, ys));
    }
  }

  /** So the output is that of naive grep under exactly that condition. */
  lemma OutputIsNaive(before: seq<Byte>, s: seq<Byte>, fname: seq<Byte>, text: seq<Byte>)
    ensures before + Report(fname, Wrapped(s, text)) == before + Report(fname, Filter(s, Lines(text))) <==>
      PlainHits(s, text)
  {
    WrappedIsFilter(s, text);
    var printed, naive := Report(fname, Wrapped(s, text)), Report(fname, Filter(s, Lines(text)));
    assert (before + printed)[|before|..] == printed && (before + naive)[|before|..] == naive;
    if printed == naive {
      WrappedAreLines(s, text);
      FilterAreLines(s, Lines(text));
      ReportInjective(fname, Wrapped(s, text), Filter(s, Lines(text)));
    }
  }
}

/** The streaming scanner of syscalls/ece391grep.c. */
module Grep {
  import opened Bytes
  import opened GrepSpec
  import opened Support

  /** An open file, read front to back; a read is short only at end of file. */
  class OpenFile {
    const contents: seq<Byte>
    var pos: nat

    ghost predicate Valid()
      reads this
    {
      pos <= |contents|
    }

    constructor (contents: seq<Byte>)
      ensures Valid() && pos == 0 && this.contents == contents
    {
      this.contents := contents;
      pos := 0;
    }

    method Read(data: array<Byte>, off: nat, n: nat) returns (cnt: nat)
      requires Valid() && off + n <= data.Length
      modifies this, data
      ensures Valid()
      ensures cnt == Min(n, |contents| - old(pos)) && pos == old(pos) + cnt
      ensures data[..] == old(data[..off]) + contents[old(pos)..pos] + old(data[off + cnt..])
    {
      cnt := Min(n, |contents| - pos);
      var i := 0;
      while i < cnt
        invariant 0 <= i <= cnt
        invariant pos == old(pos)
        invariant forall k :: 0 <= k < data.Length ==>
          data[k] == if off <= k < off + i then contents[pos + (k - off)] else old(data[k])
      {
        data[off + i] := contents[pos + i];
        i := i + 1;
      }
      pos := pos + cnt;
    }
  }

  /** Everything written to descriptor 1 so far. */
  class Stdout {
    var text: seq<Byte>

    /** ece391_fdputs on the C string at `o` of a buffer. */
    method PutString(s: array<Byte>, o: nat)
      requires o <= s.Length && StringEnd(s[..], o) < s.Length
      modifies this
      ensures text == old(text) + StringAt(s[..], o)
    {
      var len := Strlen(s, o);
      text := text + s[o..o + len];
    }

    /** ece391_fdputs on a constant string. */
    method Put(s: seq<Byte>)
      requires NulFree(s)
      modifies this
      ensures text == old(text) + s
    {
      text := text + s;
    }
  }

  const OPEN_FAILED: seq<Byte> :=
    [102, 105, 108, 101, 32, 111, 112, 101, 110, 32, 102, 97, 105, 108, 101, 100, 10]

  /** The four writes that report one selected line. */
  method PrintHit(fname: seq<Byte>, data: array<Byte>, start: nat, end: nat, out: Stdout)
    requires NulFree(fname)
    requires start <= end < data.Length && data[end] == NUL && NulFree(data[start..end])
    modifies out
    ensures out.text == old(out.text) + Report(fname, [data[start..end]])
  {
    LineSuffix(data[..], start, end, start);
    assert data[start..end][0..] == data[start..end];
    out.Put(fname);
    out.Put([COLON]);
    out.PutString(data, start);
    out.Put([NEWLINE]);
    assert Report(fname, [data[start..end]]) == fname + [COLON] + data[start..end] + [NEWLINE];
  }

  /** The test at one position of the line data[start..end]: the first character is compared as a
      char with a byte, then the whole pattern. */
  method MatchesAt(s: seq<Byte>, data: array<Byte>, start: nat, end: nat, check: nat) returns (found: bool)
    requires NulFree(s) && start <= check < end < data.Length && data[end] == NUL && NulFree(data[start..end])
    ensures found <==> FoundAt(s, data[start..end], check - start)
  {
    ghost var line := data[start..end];
    assert line[check - start] == data[check];
    if s == [] || AsChar(s[0]) != data[check] {
      assert OccursAt(line, s, check - start) && s != [] ==> line[check - start..check - start + |s|][0] == s[0];
      return false;
    }
    ghost var sz := s + [NUL];
    StringEndIs(sz, 0, |s|);
    assert StringAt(sz, 0) == s;
    LineSuffix(data[..], start, end, check);
    var cmp := Strncmp(data, check, s + [NUL], |s|);
    SuffixMatch(line, s, check - start);
    found := cmp == 0;
  }

  /** Looks for `s` in the NUL-terminated line data[start..end] and prints the line once if found. */
  method SearchLine(s: seq<Byte>, fname: seq<Byte>, data: array<Byte>, start: nat, end: nat, out: Stdout)
    requires NulFree(s) && NulFree(fname)
    requires start <= end < data.Length && data[end] == NUL && NulFree(data[start..end])
    modifies out
    ensures out.text == old(out.text) + Report(fname, Hits(s, data[start..end]))
  {
    ghost var line := data[start..end];
    var check := start;
    while check < end
      invariant start <= check <= end && out.text == old(out.text)
      invariant forall k: nat :: k < check - start ==> !FoundAt(s, line, k)
    {
      var found := MatchesAt(s, data, start, end, check);
      if found {
        PrintHit(fname, data, start, end, out);
        return;
      }
      check := check + 1;
    }
  }

  lemma LineSuffix(data: seq<Byte>, start: nat, end: nat, o: nat)
    requires start <= o <= end < |data| && data[end] == NUL && NulFree(data[start..end])
    ensures StringEnd(data, o) == end
    ensures StringAt(data, o) == data[start..end][o - start..]
  {
    forall k | o <= k < end
      ensures data[k] != NUL
    {
      assert data[start..end][k - start] == data[k];
    }
    StringEndIs(data, o, end);
  }

  lemma SuffixMatch(line: seq<Byte>, s: seq<Byte>, k: nat)
    requires k <= |line|
    ensures Truncate(line[k..], |s|) == Truncate(s, |s|) <==> OccursAt(line, s, k)
  {
    assert Truncate(s, |s|) == s;
    if k + |s| <= |line| {
      assert line[k..][..|s|] == line[k..k + |s|];
    }
  }

  /** The scan for the end of the line that starts at `start`. */
  method FindLineEnd(data: array<Byte>, start: nat, last: nat) returns (end: nat)
    requires start <= last < data.Length
    ensures start <= end <= last && OneLine(data[start..end])
    ensures end < last ==> data[end] == NEWLINE
  {
    end := start;
    while end < last && data[end] != NEWLINE
      invariant start <= end <= last
      invariant OneLine(data[start..end])
    {
      end := end + 1;
    }
  }

  /** Moves the unfinished line data[start..last] to the front of the buffer. */
  method KeepTail(data: array<Byte>, start: nat, last: nat)
    requires data.Length == BUFSIZE + 1 && 0 < start <= last <= BUFSIZE
    requires data[BUFSIZE] != NEWLINE && NulFree(data[start..last])
    modifies data
    ensures data[0..last - start] == old(data[start..last])
    ensures data[BUFSIZE] != NEWLINE
  {
    data[last] := NUL;
    ghost var line := data[start..last];
    LineSuffix(data[..], start, last, start);
    assert StringAt(data[..], start) == line;
    Strcpy(data, 0, start);
    assert data[0..last - start] == line;
  }

  /** What searching one line does to the text still to be searched. */
  lemma ScanLine(s: seq<Byte>, buffered: seq<Byte>, line: seq<Byte>, rest: seq<Byte>, unread: seq<Byte>)
    requires OneLine(line) && |buffered| <= BUFSIZE
    requires if |line| < |buffered| then buffered == line + [NEWLINE] + rest else buffered == line && rest == []
    requires |line| == |buffered| ==> unread == [] || |buffered| == BUFSIZE
    ensures Wrapped(s, buffered + unread) == Hits(s, line) + Wrapped(s, rest + unread)
  {
    if |line| < |buffered| {
      assert buffered + unread == line + [NEWLINE] + (rest + unread);
      WrapLine(s, line, rest + unread);
    } else if unread == [] {
      assert buffered + unread == line && rest + unread == [];
      WrapLastLine(s, line);
      assert Wrapped(s, []) == [];
    } else {
      assert rest + unread == unread;
      WrapFullBuffer(s, line, unread);
    }
  }

  /** The pending text data[start..last] is its first line, the newline and the rest. */
  lemma PendingSplit(data: seq<Byte>, start: nat, end: nat, last: nat)
    requires start <= end < last <= |data| && data[end] == NEWLINE
    ensures data[start..last] == data[start..end] + [NEWLINE] + data[end + 1..last]
  {
  }

  /** Replaces the end of the line by a NUL; the bytes around it stay. */
  method Terminate(data: array<Byte>, start: nat, end: nat, last: nat)
    requires start <= end <= last <= BUFSIZE && data.Length == BUFSIZE + 1 && data[BUFSIZE] != NEWLINE
    modifies data
    ensures data[end] == NUL && data[BUFSIZE] != NEWLINE && data[start..end] == old(data[start..end])
    ensures end < last ==> data[end + 1..last] == old(data[end + 1..last])
  {
    data[end] := NUL;
  }

  /** Terminates and searches the line data[start..end]; the bytes after it stay. */
  method SearchNext(s: seq<Byte>, fname: seq<Byte>, data: array<Byte>, start: nat, end: nat, last: nat,
                    ghost unread: seq<Byte>, out: Stdout)
    returns (ghost hits: seq<seq<Byte>>)
    requires NulFree(s) && NulFree(fname) && data.Length == BUFSIZE + 1
    requires start <= end <= last <= BUFSIZE && NulFree(data[start..last])
    requires OneLine(data[start..end]) && data[BUFSIZE] != NEWLINE
    requires end < last ==> data[end] == NEWLINE
    requires end == last ==> unread == [] || last - start == BUFSIZE
    modifies data, out
    ensures data[BUFSIZE] != NEWLINE
    ensures out.text == old(out.text) + Report(fname, hits)
    ensures end < last ==> data[end + 1..last] == old(data[end + 1..last])
    ensures Wrapped(s, old(data[start..last]) + unread) ==
      hits + Wrapped(s, (if end < last then old(data[end + 1..last]) else []) + unread)
  {
    ghost var line := data[start..end];
    assert NulFree(line) by {
      assert line == data[start..last][..end - start];
    }
    if end < last {
      PendingSplit(data[..], start, end, last);
    }
    ScanLine(s, data[start..last], line, if end < last then data[end + 1..last] else [], unread);
    hits := Hits(s, line);
    Terminate(data, start, end, last);
    SearchLine(s, fname, data, start, end, out);
  }

  /** Searches the line data[start..end] and moves on to the text after it, if there is any. */
  method TakeLine(s: seq<Byte>, fname: seq<Byte>, data: array<Byte>, start: nat, end: nat, last: nat,
                  ghost unread: seq<Byte>, out: Stdout)
    returns (from: nat, to: nat, done: bool, ghost hits: seq<seq<Byte>>)
    requires NulFree(s) && NulFree(fname) && data.Length == BUFSIZE + 1
    requires start <= end <= last <= BUFSIZE && NulFree(data[start..last])
    requires OneLine(data[start..end]) && data[BUFSIZE] != NEWLINE
    requires end < last ==> data[end] == NEWLINE
    requires end == last ==> unread == [] || last - start == BUFSIZE
    modifies data, out
    ensures from <= to <= BUFSIZE && data[BUFSIZE] != NEWLINE && NulFree(data[from..to])
    ensures if done then from == 0 == to else start < from && to == last
    ensures out.text == old(out.text) + Report(fname, hits)
    ensures Wrapped(s, old(data[start..last]) + unread) == hits + Wrapped(s, data[from..to] + unread)
  {
    hits := SearchNext(s, fname, data, start, end, last, unread, out);
    if end + 1 >= last {
      from, to, done := 0, 0, true;
      assert data[from..to] == if end < last then old(data[end + 1..last]) else [];
    } else {
      from, to, done := end + 1, last, false;
      assert data[from..to] == old(data[start..last])[end + 1 - start..];
    }
  }

  /** One round of the scan over the pending text data[start..last]: finds its first line and
      searches it, or keeps it when it is unfinished. The pending text is then data[from..to]. */
  method ScanOnce(s: seq<Byte>, fname: seq<Byte>, data: array<Byte>, start: nat, last: nat, cnt: nat,
                  ghost unread: seq<Byte>, out: Stdout)
    returns (from: nat, to: nat, done: bool, ghost hits: seq<seq<Byte>>)
    requires NulFree(s) && NulFree(fname) && data.Length == BUFSIZE + 1
    requires start <= last <= BUFSIZE && data[BUFSIZE] != NEWLINE && NulFree(data[start..last])
    requires last < BUFSIZE ==> unread == []
    requires cnt == 0 ==> last < BUFSIZE
    modifies data, out
    ensures from <= to <= BUFSIZE && data[BUFSIZE] != NEWLINE && NulFree(data[from..to])
    ensures done ==> from == 0 && to < BUFSIZE && (cnt == 0 ==> to == 0)
    ensures !done ==> start < from && to == last
    ensures out.text == old(out.text) + Report(fname, hits)
    ensures Wrapped(s, old(data[start..last]) + unread) == hits + Wrapped(s, data[from..to] + unread)
  {
    var end := FindLineEnd(data, start, last);
    if data[end] != NEWLINE && cnt != 0 && start != 0 {
      KeepTail(data, start, last);
      hits := [];
      from, to, done := 0, last - start, true;
      assert data[from..to] == old(data[start..last]);
      return;
    }
    from, to, done, hits := TakeLine(s, fname, data, start, end, last, unread, out);
  }

  /** One pass over data[0..last]: prints the selected lines and keeps an unfinished last line. */
  method ScanBuffer(s: seq<Byte>, fname: seq<Byte>, data: array<Byte>, last: nat, cnt: nat,
                    ghost unread: seq<Byte>, out: Stdout)
    returns (newLast: nat, ghost printed: seq<seq<Byte>>)
    requires NulFree(s) && NulFree(fname) && data.Length == BUFSIZE + 1
    requires last <= BUFSIZE && data[BUFSIZE] != NEWLINE && NulFree(data[0..last])
    // a buffer that is not full means end of file; nothing was read only at end of file
    requires last < BUFSIZE ==> unread == []
    requires cnt == 0 ==> last < BUFSIZE
    modifies data, out
    ensures newLast < BUFSIZE && data[BUFSIZE] != NEWLINE
    ensures NulFree(data[0..newLast])
    ensures out.text == old(out.text) + Report(fname, printed)
    ensures Wrapped(s, old(data[0..last]) + unread) == printed + Wrapped(s, data[0..newLast] + unread)
    ensures cnt == 0 ==> newLast == 0
  {
    ghost var all := Wrapped(s, data[0..last] + unread);
    printed := [];
    var lineStart: nat, done := 0, false;
    newLast := last;
    while !done
      invariant lineStart <= newLast <= BUFSIZE && data[BUFSIZE] != NEWLINE
      invariant NulFree(data[lineStart..newLast])
      invariant done ==> lineStart == 0 && newLast < BUFSIZE && (cnt == 0 ==> newLast == 0)
      invariant !done ==> newLast == last
      invariant out.text == old(out.text) + Report(fname, printed)
      invariant all == printed + Wrapped(s, data[lineStart..newLast] + unread)
      decreases !done, newLast - lineStart
    {
      ghost var todo := Wrapped(s, data[lineStart..newLast] + unread);
      ghost var hits;
      lineStart, newLast, done, hits := ScanOnce(s, fname, data, lineStart, newLast, cnt, unread, out);
      ReportMore(old(out.text), fname, printed, hits);
      AppendStep(all, printed, todo, hits, Wrapped(s, data[lineStart..newLast] + unread));
      printed := printed + hits;
    }
  }

  /** Refills the buffer behind the unfinished line and scans it. */
  method ReadAndScan(s: seq<Byte>, fname: seq<Byte>, file: OpenFile, data: array<Byte>, last: nat, out: Stdout)
    returns (cnt: nat, newLast: nat, ghost printed: seq<seq<Byte>>)
    requires NulFree(s) && NulFree(fname)
    requires data.Length == BUFSIZE + 1 && data[BUFSIZE] != NEWLINE
    requires file.Valid() && NulFree(file.contents) && last < BUFSIZE && NulFree(data[0..last])
    modifies file, data, out
    ensures file.Valid() && cnt == file.pos - old(file.pos)
    ensures newLast < BUFSIZE && data[BUFSIZE] != NEWLINE
    ensures NulFree(data[0..newLast])
    ensures out.text == old(out.text) + Report(fname, printed)
    ensures Wrapped(s, old(data[0..last]) + file.contents[old(file.pos)..]) ==
      printed + Wrapped(s, data[0..newLast] + file.contents[file.pos..])
    ensures cnt == 0 ==> newLast == 0 && file.pos == |file.contents|
  {
    ghost var kept := data[0..last];
    ghost var from := file.pos;
    cnt := file.Read(data, last, BUFSIZE - last);
    ghost var unread := file.contents[file.pos..];
    assert data[0..last + cnt] == kept + file.contents[from..file.pos];
    assert kept + file.contents[from..] == data[0..last + cnt] + unread;
    newLast, printed := ScanBuffer(s, fname, data, last + cnt, cnt, unread, out);
  }

  /** The outer loop: reads and scans until nothing is read. */
  method ScanFile(s: seq<Byte>, fname: seq<Byte>, file: OpenFile, data: array<Byte>, out: Stdout)
    requires NulFree(s) && NulFree(fname)
    requires data.Length == BUFSIZE + 1 && data[BUFSIZE] != NEWLINE
    requires file.Valid() && file.pos == 0 && NulFree(file.contents)
    modifies data, out, file
    ensures file.pos == |file.contents|
    ensures out.text == old(out.text) + Report(fname, Wrapped(s, file.contents))
  {
    ghost var printed := [];
    var last: nat := 0;
    var cnt := 1;
    assert data[0..0] + file.contents[0..] == file.contents;
    while cnt != 0
      invariant file.Valid() && last < BUFSIZE && data[BUFSIZE] != NEWLINE
      invariant NulFree(data[0..last])
      invariant out.text == old(out.text) + Report(fname, printed)
      invariant Wrapped(s, file.contents) == printed + Wrapped(s, data[0..last] + file.contents[file.pos..])
      invariant cnt == 0 ==> last == 0 && file.pos == |file.contents|
      decreases |file.contents| - file.pos, cnt
    {
      ghost var todo := Wrapped(s, data[0..last] + file.contents[file.pos..]);
      ghost var more;
      cnt, last, more := ReadAndScan(s, fname, file, data, last, out);
      ReportMore(old(out.text), fname, printed, more);
      AppendStep(Wrapped(s, file.contents), printed, todo, more, Wrapped(s, data[0..last] + file.contents[file.pos..]));
      printed := printed + more;
    }
    assert data[0..0] + file.contents[file.pos..] == [];
    assert Wrapped(s, []) == [] && printed + [] == printed;
  }

  /** Prints every piece of the file in which the pattern is found, whatever the chunk boundaries;
      this is the output of naive grep exactly under `PlainHits`. `data` is the uninitialised
      stack buffer; a null `file` is a failed open. */
  method DoOneFile(s: seq<Byte>, fname: seq<Byte>, file: OpenFile?, data: array<Byte>, out: Stdout)
    returns (r: int)
    requires NulFree(s) && NulFree(fname)
    requires data.Length == BUFSIZE + 1 && data[BUFSIZE] != NEWLINE
    requires file != null ==> file.Valid() && file.pos == 0 && NulFree(file.contents)
    modifies data, out, file
    ensures file == null ==> r == -1 && out.text == old(out.text) + OPEN_FAILED
    ensures file != null ==>
      && r == 0 && file.pos == |file.contents|
      && out.text == old(out.text) + Report(fname, Wrapped(s, file.contents))
    ensures file != null ==>
      (out.text == old(out.text) + Report(fname, Filter(s, Lines(file.contents))) <==> PlainHits(s, file.contents))
  {
    if file == null {
      out.Put(OPEN_FAILED);
      return -1;
    }
    OutputIsNaive(out.text, s, fname, file.contents);
    ScanFile(s, fname, file, data, out);
    r := 0;
  }
}
