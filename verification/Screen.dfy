/** One 80x25 text console of student-distrib/lib.c: a 4 KB page of (character, attribute)
    byte pairs, a cursor, and the unbounded text log it displays. */
module Screen {
  import opened Bytes

  const COLS := 80
  const ROWS := 25
  const TAB_WIDTH := 4
  const ATTRIB: Byte := 7
  const PAGE_SIZE := 4096
  const SCREEN_BYTES := 2 * ROWS * COLS

  type Page = p: seq<Byte> | |p| == PAGE_SIZE witness seq(PAGE_SIZE, _ => 0)

  datatype Console = Console(page: Page, x: int, y: int, runon: bool)

  /** The cursor positions every safe operation returns to: the last column is never occupied. */
  predicate InRange(s: Console) {
    0 <= s.x < COLS - 1 && 0 <= s.y < ROWS
  }

  // ------------------------------------------------------------------ the page

  function Cell(s: Console): int {
    COLS * s.y + s.x
  }

  /** Writes one cell; an index outside the page leaves this page alone. */
  function Poke(page: Page, cell: int, c: Byte): Page {
    if 0 <= cell < PAGE_SIZE / 2 then page[2 * cell := c][2 * cell + 1 := ATTRIB] else page
  }

  lemma PokeAgain(page: Page, cell: int, c: Byte)
    ensures Poke(Poke(page, cell, c), cell, c) == Poke(page, cell, c)
  {
  }

  function ScrolledByte(page: Page, i: nat): Byte
    requires i < PAGE_SIZE
  {
    if i >= SCREEN_BYTES then page[i]
    else if i % 2 == 1 then (if i < 2 * COLS then page[i] else ATTRIB)
    else if i < SCREEN_BYTES - 2 * COLS then page[i + 2 * COLS]
    else SPACE
  }

  function ScrolledPage(page: Page): Page {
    seq(PAGE_SIZE, i requires 0 <= i < PAGE_SIZE => ScrolledByte(page, i))
  }

  function ClearedByte(page: Page, i: nat): Byte
    requires i < PAGE_SIZE
  {
    if i >= SCREEN_BYTES then page[i] else if i % 2 == 0 then SPACE else ATTRIB
  }

  function ClearedPage(page: Page): Page {
    seq(PAGE_SIZE, i requires 0 <= i < PAGE_SIZE => ClearedByte(page, i))
  }

  // ------------------------------------------------------------ the operations

  function Clear(s: Console): Console {
    s.(page := ClearedPage(s.page), x := 0, y := 0)
  }

  function Scroll(s: Console): Console {
    s.(page := ScrolledPage(s.page), x := 0, y := ROWS - 1)
  }

  /** Where a backspace moves the cursor. */
  function Back(s: Console): Console {
    if s.x >= 1 then s.(x := s.x - 1)
    else if s.runon then s.(x := COLS - 2, y := s.y - 1)
    else s
  }

  /** The case distinction on the character, common to putc and echo. */
  function Place(s: Console, c: Byte): Console
    requires InRange(s)
  {
    if c == NEWLINE || c == RETURN then
      (if s.y >= ROWS - 1 then Scroll(s) else s.(y := s.y + 1)).(x := 0)
    else if c == BACKSPACE then
      var t := Back(s);
      t.(page := Poke(t.page, Cell(t), SPACE))
    else if c == TAB then
      var t := s.(x := s.x + TAB_WIDTH);
      t.(page := Poke(t.page, Cell(t), SPACE))
    else if c == ESCAPE then
      if s.y >= ROWS - 1 then Scroll(s.(runon := false)) else s.(runon := false, x := 0, y := s.y + 1)
    else
      s.(page := Poke(s.page, Cell(s), c), x := s.x + 1)
  }

  function ScrollIfFull(s: Console): Console {
    if s.x >= COLS - 1 && s.y >= ROWS - 1 then Scroll(s) else s
  }

  function Wrap(s: Console): Console {
    s.(runon := true, y := s.y + 1, x := 0)
  }

  function Putc(s: Console, c: Byte): Console
    requires InRange(s)
  {
    var t := ScrollIfFull(Place(s, c));
    if t.x >= COLS - 1 then Wrap(t) else t
  }

  /** Like putc, except that the wrap test is an equality. */
  function Echo(s: Console, c: Byte): Console
    requires InRange(s)
  {
    var t := ScrollIfFull(Place(s, c));
    if t.x == COLS - 1 then Wrap(t) else t
  }

  // ----------------------------------------------------- when the cursor is safe

  /** A backspace in the top left corner would follow a stale `runon` off the page. */
  predicate PutcSafe(s: Console, c: Byte) {
    !(c == BACKSPACE && s.x == 0 && s.y == 0 && s.runon)
  }

  /** Echo also mistreats a tab that jumps over the last column above the last row. */
  predicate EchoSafe(s: Console, c: Byte) {
    PutcSafe(s, c) && !(c == TAB && s.x + TAB_WIDTH >= COLS && s.y < ROWS - 1)
  }

  /** No byte of the text is a backspace that the write brings to the top left corner with a stale
      `runon`. */
  predicate CanWrite(s: Console, text: seq<Byte>)
    decreases |text|, 0
  {
    InRange(s) &&
    (text == [] ||
     (var before := text[..|text| - 1];
      CanWrite(s, before) && (text[|text| - 1] == NUL || PutcSafe(Write(s, before), text[|text| - 1]))))
  }

  /** term_write: NUL bytes are skipped. */
  function Write(s: Console, text: seq<Byte>): (t: Console)
    requires CanWrite(s, text)
    ensures InRange(t)
    decreases |text|, 1
  {
    if text == [] then s
    else
      var before := Write(s, text[..|text| - 1]);
      if text[|text| - 1] == NUL then before else Putc(before, text[|text| - 1])
  }

  lemma {:induction false} CanWritePrefix(s: Console, text: seq<Byte>, n: nat)
    requires CanWrite(s, text) && n <= |text|
    ensures CanWrite(s, text[..n])
    decreases |text|
  {
    if n < |text| {
      CanWritePrefix(s, text[..|text| - 1], n);
      assert text[..|text| - 1][..n] == text[..n];
    } else {
      assert text[..n] == text;
    }
  }

  /** One byte more of a text that can be written. */
  lemma WriteNext(s: Console, text: seq<Byte>, i: nat)
    requires CanWrite(s, text) && i < |text|
    ensures CanWrite(s, text[..i]) && CanWrite(s, text[..i + 1])
    ensures text[i] != NUL ==> PutcSafe(Write(s, text[..i]), text[i])
    ensures Write(s, text[..i + 1]) ==
      if text[i] == NUL then Write(s, text[..i]) else Putc(Write(s, text[..i]), text[i])
  {
    CanWritePrefix(s, text, i);
    CanWritePrefix(s, text, i + 1);
    assert text[..i + 1][..i] == text[..i];
  }

  /** Without backspaces every text can be written. */
  lemma {:induction false} CanWriteForward(s: Console, text: seq<Byte>)
    requires InRange(s) && BACKSPACE !in text
    ensures CanWrite(s, text)
    decreases |text|
  {
    if text != [] {
      CanWriteForward(s, text[..|text| - 1]);
    }
  }

  lemma PutcInRange(s: Console, c: Byte)
    requires InRange(s)
    ensures InRange(Putc(s, c)) <==> PutcSafe(s, c)
  {
  }

  lemma EchoInRange(s: Console, c: Byte)
    requires InRange(s)
    ensures InRange(Echo(s, c)) <==> EchoSafe(s, c)
  {
  }

  /** The one cell an operation writes lies in the console's page exactly when the operation is safe. */
  lemma StaysInPage(s: Console, c: Byte)
    requires InRange(s)
    ensures 0 <= Cell(s) < PAGE_SIZE / 2 && 0 <= Cell(s) + TAB_WIDTH < PAGE_SIZE / 2
    ensures c == BACKSPACE ==> (0 <= Cell(Back(s)) < PAGE_SIZE / 2 <==> PutcSafe(s, c))
  {
  }
}

/** The text log a console displays: rows of unbounded number, none of them rewritten. */
module TextLog {
  import opened Bytes
  import opened Screen

  /** Finished rows, and the row being written. */
  datatype Log = Log(rows: seq<seq<Byte>>, last: seq<Byte>)

  predicate EndsRow(c: Byte) {
    c == NEWLINE || c == RETURN || c == ESCAPE
  }

  /** Text that never moves the cursor back. */
  predicate PlainText(text: seq<Byte>) {
    BACKSPACE !in text
  }

  /** What a tab adds to its row. */
  const TAB_BLANKS: seq<Byte> := [SPACE, SPACE, SPACE, SPACE]

  function AddByte(log: Log, c: Byte): Log {
    if c == NUL then log
    else if EndsRow(c) then Log(log.rows + [log.last], [])
    else if c == TAB then
      var row := log.last + TAB_BLANKS;
      if |row| >= COLS - 1 then Log(log.rows + [row], []) else Log(log.rows, row)
    else if |log.last| + 1 == COLS - 1 then Log(log.rows + [log.last + [c]], [])
    else Log(log.rows, log.last + [c])
  }

  function Layout(text: seq<Byte>): (log: Log)
    ensures |log.last| < COLS - 1
    decreases |text|
  {
    if text == [] then Log([], []) else AddByte(Layout(text[..|text| - 1]), text[|text| - 1])
  }

  /** Row `r` of the log, counting the unfinished one. */
  function Row(log: Log, r: nat): seq<Byte>
    requires r <= |log.rows|
  {
    if r < |log.rows| then log.rows[r] else log.last
  }

  /** The log row at the top of the screen: the last ROWS rows are visible. */
  function Top(log: Log): nat {
    if |log.rows| < ROWS then 0 else |log.rows| - (ROWS - 1)
  }

  /** The character at screen position (r, col): the log's, padded with blanks. */
  function Glyph(log: Log, r: nat, col: nat): Byte {
    if Top(log) + r <= |log.rows| && col < |Row(log, Top(log) + r)|
    then Row(log, Top(log) + r)[col] else SPACE
  }

  function CharAt(page: Page, r: nat, col: nat): Byte
    requires r < ROWS && col < COLS
  {
    page[2 * (COLS * r + col)]
  }

  function AttribAt(page: Page, r: nat, col: nat): Byte
    requires r < ROWS && col < COLS
  {
    page[2 * (COLS * r + col) + 1]
  }

  /** The page displays exactly the last ROWS rows of the log, blanks elsewhere. */
  ghost predicate Displays(page: Page, log: Log) {
    && (forall r: nat, col: nat :: r < ROWS && col < COLS ==> CharAt(page, r, col) == Glyph(log, r, col))
    && (forall r: nat, col: nat :: r < ROWS && col < COLS ==> AttribAt(page, r, col) == ATTRIB)
  }

  /** The console is the log: its last rows on the screen, the cursor at its end. */
  ghost predicate Shows(s: Console, log: Log) {
    && |log.last| < COLS - 1
    && s.x == |log.last| && s.y == Min(|log.rows|, ROWS - 1)
    && Displays(s.page, log)
  }

  // ---------------------------------------------------------------- one character

  lemma PokeCell(page: Page, y: nat, x: nat, c: Byte, r: nat, col: nat)
    requires y < ROWS && x < COLS && r < ROWS && col < COLS
    ensures CharAt(Poke(page, COLS * y + x, c), r, col) == if (r, col) == (y, x) then c else CharAt(page, r, col)
    ensures AttribAt(Poke(page, COLS * y + x, c), r, col) ==
      if (r, col) == (y, x) then ATTRIB else AttribAt(page, r, col)
  {
  }

  lemma ScrollCell(page: Page, r: nat, col: nat)
    requires r < ROWS && col < COLS
    ensures CharAt(ScrolledPage(page), r, col) == if r < ROWS - 1 then CharAt(page, r + 1, col) else SPACE
    ensures AttribAt(ScrolledPage(page), r, col) == if r == 0 then AttribAt(page, 0, col) else ATTRIB
  {
  }

  lemma EndRowCell(page: Page, log: Log, r: nat, col: nat)
    requires Displays(page, log) && r < ROWS && col < COLS
    ensures var next := Log(log.rows + [log.last], []);
      var page' := if |log.rows| < ROWS - 1 then page else ScrolledPage(page);
      CharAt(page', r, col) == Glyph(next, r, col) && AttribAt(page', r, col) == ATTRIB
  {
    ScrollCell(page, r, col);
    assert CharAt(page, r, col) == Glyph(log, r, col);
    assert r + 1 < ROWS ==> CharAt(page, r + 1, col) == Glyph(log, r + 1, col);
    assert AttribAt(page, r, col) == ATTRIB;
    assert r == 0 ==> AttribAt(page, 0, col) == ATTRIB;
  }

  /** Finishing the current row shows the log with one row more. */
  lemma EndRowShows(page: Page, log: Log)
    requires Displays(page, log)
    ensures Displays(if |log.rows| < ROWS - 1 then page else ScrolledPage(page), Log(log.rows + [log.last], []))
  {
    var next := Log(log.rows + [log.last], []);
    var page' := if |log.rows| < ROWS - 1 then page else ScrolledPage(page);
    forall r: nat, col: nat | r < ROWS && col < COLS
      ensures CharAt(page', r, col) == Glyph(next, r, col) && AttribAt(page', r, col) == ATTRIB
    {
      EndRowCell(page, log, r, col);
    }
  }

  lemma ExtendRowCell(page: Page, log: Log, c: Byte, r: nat, col: nat)
    requires Displays(page, log) && |log.last| < COLS - 1 && r < ROWS && col < COLS
    ensures var page' := Poke(page, COLS * Min(|log.rows|, ROWS - 1) + |log.last|, c);
      && CharAt(page', r, col) == Glyph(Log(log.rows, log.last + [c]), r, col)
      && AttribAt(page', r, col) == ATTRIB
  {
    PokeCell(page, Min(|log.rows|, ROWS - 1), |log.last|, c, r, col);
    assert CharAt(page, r, col) == Glyph(log, r, col);
    assert AttribAt(page, r, col) == ATTRIB;
  }

  /** A character at the end of the current row shows the log with that row longer. */
  lemma ExtendRowShows(page: Page, log: Log, c: Byte)
    requires Displays(page, log) && |log.last| < COLS - 1
    ensures Displays(Poke(page, COLS * Min(|log.rows|, ROWS - 1) + |log.last|, c), Log(log.rows, log.last + [c]))
  {
    var page' := Poke(page, COLS * Min(|log.rows|, ROWS - 1) + |log.last|, c);
    forall r: nat, col: nat | r < ROWS && col < COLS
      ensures CharAt(page', r, col) == Glyph(Log(log.rows, log.last + [c]), r, col) && AttribAt(page', r, col) == ATTRIB
    {
      ExtendRowCell(page, log, c, r, col);
    }
  }

  /** Blanks at the end of the current row are there already. */
  lemma BlankGlyph(log: Log, r: nat, col: nat)
    ensures Glyph(Log(log.rows, log.last + TAB_BLANKS), r, col) == Glyph(log, r, col)
  {
  }

  lemma BlanksShow(page: Page, log: Log)
    requires Displays(page, log)
    ensures Displays(page, Log(log.rows, log.last + TAB_BLANKS))
  {
    forall r: nat, col: nat | r < ROWS && col < COLS
      ensures CharAt(page, r, col) == Glyph(Log(log.rows, log.last + TAB_BLANKS), r, col)
    {
      BlankGlyph(log, r, col);
      assert CharAt(page, r, col) == Glyph(log, r, col);
    }
  }

  /** A tab's blank goes to a cell that is blank, or below the screen. */
  lemma TabCell(page: Page, log: Log, r: nat, col: nat)
    requires Displays(page, log) && |log.last| < COLS - 1 && r < ROWS && col < COLS
    ensures var page' := Poke(page, COLS * Min(|log.rows|, ROWS - 1) + |log.last| + TAB_WIDTH, SPACE);
      CharAt(page', r, col) == Glyph(log, r, col) && AttribAt(page', r, col) == ATTRIB
  {
    assert CharAt(page, r, col) == Glyph(log, r, col);
    assert AttribAt(page, r, col) == ATTRIB;
  }

  lemma TabShows(page: Page, log: Log)
    requires Displays(page, log) && |log.last| < COLS - 1
    ensures Displays(Poke(page, COLS * Min(|log.rows|, ROWS - 1) + |log.last| + TAB_WIDTH, SPACE),
                     Log(log.rows, log.last + TAB_BLANKS))
  {
    var page' := Poke(page, COLS * Min(|log.rows|, ROWS - 1) + |log.last| + TAB_WIDTH, SPACE);
    forall r: nat, col: nat | r < ROWS && col < COLS
      ensures CharAt(page', r, col) == Glyph(log, r, col) && AttribAt(page', r, col) == ATTRIB
    {
      TabCell(page, log, r, col);
    }
    BlanksShow(page', log);
  }

  /** Where putc leaves the cursor after a tab, and what it does to the page. */
  lemma PutTab(s: Console)
    requires InRange(s)
    ensures var page', t := Poke(s.page, Cell(s) + TAB_WIDTH, SPACE), Putc(s, TAB);
      if s.x + TAB_WIDTH < COLS - 1 then t.page == page' && t.x == s.x + TAB_WIDTH && t.y == s.y
      else t.page == (if s.y < ROWS - 1 then page' else ScrolledPage(page')) && t.x == 0 && t.y == Min(s.y + 1, ROWS - 1)
  {
  }

  lemma PutTabShows(s: Console, log: Log)
    requires Shows(s, log)
    ensures Shows(Putc(s, TAB), AddByte(log, TAB))
  {
    var page', longer := Poke(s.page, Cell(s) + TAB_WIDTH, SPACE), Log(log.rows, log.last + TAB_BLANKS);
    PutTab(s);
    TabShows(s.page, log);
    if |longer.last| >= COLS - 1 {
      EndRowShows(page', longer);
    }
  }

  /** One byte of plain text on the screen is one byte added to the log. */
  lemma PutcShows(s: Console, log: Log, c: Byte)
    requires Shows(s, log) && c != NUL && c != BACKSPACE
    ensures Shows(Putc(s, c), AddByte(log, c))
  {
    if EndsRow(c) {
      EndRowShows(s.page, log);
    } else if c == TAB {
      PutTabShows(s, log);
    } else {
      var longer := Log(log.rows, log.last + [c]);
      ExtendRowShows(s.page, log, c);
      if |longer.last| == COLS - 1 {
        EndRowShows(Poke(s.page, Cell(s), c), longer);
      }
    }
  }

  lemma ClearShows(s: Console)
    ensures Shows(Clear(s), Log([], []))
  {
    forall r: nat, col: nat | r < ROWS && col < COLS
      ensures CharAt(ClearedPage(s.page), r, col) == SPACE && AttribAt(ClearedPage(s.page), r, col) == ATTRIB
    {
    }
  }

  /** Echo and putc agree on everything but a tab that jumps over the last column. */
  lemma EchoIsPutc(s: Console, c: Byte)
    requires InRange(s)
    ensures Echo(s, c) == Putc(s, c) <==> !(c == TAB && s.x + TAB_WIDTH >= COLS && s.y < ROWS - 1)
  {
  }

  // ---------------------------------------------------------------- whole texts

  /** After clear(), term_write displays the last rows of the text's layout. */
  lemma {:induction false} WriteShows(s: Console, text: seq<Byte>)
    requires PlainText(text)
    ensures CanWrite(Clear(s), text) && Shows(Write(Clear(s), text), Layout(text))
  {
    CanWriteForward(Clear(s), text);
    if text == [] {
      ClearShows(s);
    } else {
      var before := text[..|text| - 1];
      WriteShows(s, before);
      var c := text[|text| - 1];
      if c != NUL {
        PutcShows(Write(Clear(s), before), Layout(before), c);
      }
    }
  }

  // ------------------------------------------------- the layout, line by line

  predicate Printable(text: seq<Byte>) {
    forall k :: 0 <= k < |text| ==> text[k] != NUL && text[k] != BACKSPACE && text[k] != TAB && !EndsRow(text[k])
  }

  /** The full rows a line fills: consecutive pieces of COLS - 1 characters. */
  function FullRows(line: seq<Byte>): seq<seq<Byte>>
    decreases |line|
  {
    if |line| < COLS - 1 then [] else [line[..COLS - 1]] + FullRows(line[COLS - 1..])
  }

  /** What is left on the row after them; empty when the line just filled its last row. */
  function LastRow(line: seq<Byte>): (row: seq<Byte>)
    ensures |row| < COLS - 1
    decreases |line|
  {
    if |line| < COLS - 1 then line else LastRow(line[COLS - 1..])
  }

  lemma {:induction false} RowsOfLongerLine(line: seq<Byte>, c: Byte)
    ensures FullRows(line + [c]) ==
      if |LastRow(line)| == COLS - 2 then FullRows(line) + [LastRow(line) + [c]] else FullRows(line)
    ensures LastRow(line + [c]) == if |LastRow(line)| == COLS - 2 then [] else LastRow(line) + [c]
    decreases |line|
  {
    if |line| < COLS - 1 {
      if |line| == COLS - 2 {
        assert (line + [c])[..COLS - 1] == line + [c] && (line + [c])[COLS - 1..] == [];
      }
    } else {
      assert (line + [c])[..COLS - 1] == line[..COLS - 1];
      assert (line + [c])[COLS - 1..] == line[COLS - 1..] + [c];
      RowsOfLongerLine(line[COLS - 1..], c);
    }
  }

  lemma LayoutSnoc(text: seq<Byte>, c: Byte)
    ensures Layout(text + [c]) == AddByte(Layout(text), c)
  {
    assert (text + [c])[..|text + [c]| - 1] == text;
  }

  /** A printable byte only works on the end of the log. */
  lemma AddByteBehind(rows: seq<seq<Byte>>, log: Log, c: Byte)
    requires Printable([c])
    ensures AddByte(Log(rows + log.rows, log.last), c) == Log(rows + AddByte(log, c).rows, AddByte(log, c).last)
  {
    assert [c][0] == c;
    assert rows + (log.rows + [log.last + [c]]) == (rows + log.rows) + [log.last + [c]];
  }

  /** A line that starts on a fresh row is cut every COLS - 1 characters, eagerly. */
  lemma {:induction false} LayoutOfLine(text: seq<Byte>, line: seq<Byte>)
    requires Layout(text).last == [] && Printable(line)
    ensures Layout(text + line) == Log(Layout(text).rows + FullRows(line), LastRow(line))
    decreases |line|
  {
    if line == [] {
      assert text + line == text;
    } else {
      var shorter, c := line[..|line| - 1], line[|line| - 1];
      assert (text + shorter) + [c] == text + line && shorter + [c] == line;
      LayoutOfLine(text, shorter);
      RowsOfLongerLine(shorter, c);
      LayoutSnoc(text + shorter, c);
      assert [c][0] == line[|line| - 1];
      AddByteBehind(Layout(text).rows, Log(FullRows(shorter), LastRow(shorter)), c);
    }
  }

  /** A row terminator finishes the row, even an empty one left by the eager wrap. */
  lemma LayoutOfRowEnd(text: seq<Byte>, end: Byte)
    requires EndsRow(end)
    ensures Layout(text + [end]) == Log(Layout(text).rows + [Layout(text).last], [])
  {
    LayoutSnoc(text, end);
  }
}

/** Typing and rubbing out: k backspaces undo k echoed characters. */
module EchoUndo {
  import opened Bytes
  import opened Screen
  import opened TextLog

  /** Echoes a string; a run that leaves the screen stops there. */
  function EchoRun(s: Console, text: seq<Byte>): Console
    decreases |text|
  {
    if text == [] || !InRange(s) then s else EchoRun(Echo(s, text[0]), text[1..])
  }

  function Backspaces(k: nat): seq<Byte> {
    seq(k, _ => BACKSPACE)
  }

  /** All cells from the cursor on are blank. */
  ghost predicate BlankAhead(s: Console) {
    forall r: nat, col: nat :: r < ROWS && col < COLS && (s.y < r || (s.y == r && s.x <= col)) ==>
      CharAt(s.page, r, col) == SPACE && AttribAt(s.page, r, col) == ATTRIB
  }

  /** The number of characters in front of the cursor, in rows of COLS - 1. */
  function Position(s: Console): int {
    (COLS - 1) * s.y + s.x
  }

  lemma {:induction false} EchoRunConcat(s: Console, a: seq<Byte>, b: seq<Byte>)
    ensures InRange(EchoRun(s, a)) ==> EchoRun(s, a + b) == EchoRun(EchoRun(s, a), b)
    decreases |a|
  {
    if a == [] {
      assert a + b == b;
    } else if InRange(s) {
      EchoRunConcat(Echo(s, a[0]), a[1..], b);
      assert (a + b)[1..] == a[1..] + b;
    }
  }

  /** One character, while the screen does not scroll. */
  lemma EchoOne(s: Console, c: Byte)
    requires InRange(s) && BlankAhead(s) && Printable([c])
    requires Position(s) + 1 < (COLS - 1) * ROWS
    ensures InRange(Echo(s, c)) && BlankAhead(Echo(s, c))
    ensures Position(Echo(s, c)) == Position(s) + 1
    ensures Echo(s, c).page == Poke(s.page, Cell(s), c)
    ensures s.runon || Echo(s, c).x == 0 ==> Echo(s, c).runon
  {
    assert [c][0] == c;
    var t := Echo(s, c);
    assert t.page == Poke(s.page, Cell(s), c);
    forall r: nat, col: nat | r < ROWS && col < COLS && (t.y < r || (t.y == r && t.x <= col))
      ensures CharAt(t.page, r, col) == SPACE && AttribAt(t.page, r, col) == ATTRIB
    {
      PokeCell(s.page, s.y, s.x, c, r, col);
    }
  }

  lemma BackUndoes(s: Console, c: Byte, t: Console)
    requires InRange(s) && Printable([c]) && Position(s) + 1 < (COLS - 1) * ROWS
    requires t == Echo(s, c).(runon := t.runon) && (Echo(s, c).runon ==> t.runon)
    ensures Back(t) == s.(page := Poke(s.page, Cell(s), c), runon := t.runon)
  {
    assert [c][0] == c;
  }

  /** Any printable character: the cursor stays on the screen, with blanks ahead of it, also when the
      screen scrolls. */
  lemma EchoAny(s: Console, c: Byte)
    requires InRange(s) && BlankAhead(s) && Printable([c])
    ensures InRange(Echo(s, c)) && BlankAhead(Echo(s, c))
    ensures Position(Echo(s, c)) > 0 && Echo(s, c).x != s.x
  {
    assert [c][0] == c;
    if Position(s) + 1 < (COLS - 1) * ROWS {
      EchoOne(s, c);
    } else {
      var t := Echo(s, c);
      forall r: nat, col: nat | r < ROWS && col < COLS && (t.y < r || (t.y == r && t.x <= col))
        ensures CharAt(t.page, r, col) == SPACE && AttribAt(t.page, r, col) == ATTRIB
      {
        ScrollCell(Poke(s.page, Cell(s), c), r, col);
      }
    }
  }

  /** A backspace on the state that `EchoOne` leaves brings the earlier state back. */
  lemma UndoOne(s: Console, c: Byte, t: Console)
    requires InRange(s) && BlankAhead(s) && Printable([c])
    requires Position(s) + 1 < (COLS - 1) * ROWS
    requires InRange(t) && t == Echo(s, c).(runon := t.runon) && (Echo(s, c).runon ==> t.runon)
    ensures Echo(t, BACKSPACE) == s.(runon := t.runon)
  {
    EchoOne(s, c);
    BackUndoes(s, c, t);
    assert CharAt(s.page, s.y, s.x) == SPACE && AttribAt(s.page, s.y, s.x) == ATTRIB;
    assert Poke(Poke(s.page, Cell(s), c), Cell(s), SPACE) == s.page;
  }

  /** Echoing printable characters without scrolling and then as many backspaces restores
      every cell and the cursor, across line wraps; `runon` may have become set. */
  lemma {:induction false} EchoThenErase(s: Console, text: seq<Byte>) returns (runon: bool)
    requires InRange(s) && BlankAhead(s) && Printable(text)
    requires Position(s) + |text| < (COLS - 1) * ROWS
    ensures EchoRun(s, text + Backspaces(|text|)) == s.(runon := runon)
    ensures s.runon ==> runon
    decreases |text|
  {
    if text == [] {
      assert text + Backspaces(0) == [];
      runon := s.runon;
    } else {
      var c, rest := text[0], text[1..];
      assert Printable([c]) && Printable(rest);
      EchoOne(s, c);
      var s1 := Echo(s, c);
      runon := EchoThenErase(s1, rest);
      var t := s1.(runon := runon);
      var inner := rest + Backspaces(|rest|);
      assert text + Backspaces(|text|) == [c] + (inner + [BACKSPACE]);
      EchoRunConcat(s1, inner, [BACKSPACE]);
      UndoOne(s, c, t);
      assert [BACKSPACE][1..] == [];
      assert EchoRun(t, [BACKSPACE]) == Echo(t, BACKSPACE);
      assert ([c] + (inner + [BACKSPACE]))[1..] == inner + [BACKSPACE];
    }
  }
}
