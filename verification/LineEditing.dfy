/** What the user sees while editing: keyboard and console together. */
module LineEditing {
  import opened Bytes
  import opened Screen
  import opened TextLog
  import opened EchoUndo
  import opened Keyboard
  import opened KeyEffects
  import T = Terminals

  /** A cursor on the screen, with blank cells from it on. */
  ghost predicate Ready(s: Console) {
    InRange(s) && BlankAhead(s)
  }

  /** Echoing printable text leaves the screen ready, and never in the top left corner. */
  lemma {:induction false} EchoRunReady(s: Console, text: seq<Byte>)
    requires Ready(s) && Printable(text)
    ensures Ready(EchoRun(s, text)) && (text != [] ==> Position(EchoRun(s, text)) > 0)
    decreases |text|
  {
    if text != [] {
      assert [text[0]][0] == text[0] && Printable([text[0]]);
      EchoAny(s, text[0]);
      EchoRunReady(Echo(s, text[0]), text[1..]);
      if |text| == 1 {
        assert text[1..] == [];
      }
    }
  }

  lemma EchoRunSnoc(s: Console, text: seq<Byte>, c: Byte)
    requires InRange(EchoRun(s, text))
    ensures EchoRun(s, text + [c]) == Echo(EchoRun(s, text), c)
  {
    EchoRunConcat(s, text, [c]);
    assert [c][1..] == [];
  }

  /** The states `a` and `b` look the same, and `b` has `runon` at least where `a` has. */
  predicate SameScreen(a: Console, b: Console) {
    b == a.(runon := b.runon) && (a.runon ==> b.runon)
  }

  /** The last character of the line was typed in the last column of the last row. */
  predicate LastScrolled(s0: Console, line: seq<Byte>) {
    line != [] && Position(EchoRun(s0, line[..|line| - 1])) + 1 >= (COLS - 1) * ROWS
  }

  /** A printable character on a screen that shows `line`, scrolling or not. */
  lemma TypeOnScreen(s0: Console, line: seq<Byte>, c: Byte, t: Console)
    requires Ready(s0) && Printable(line) && Printable([c]) && SameScreen(EchoRun(s0, line), t)
    ensures InRange(t) && InRange(Echo(t, c)) && Echo(t, c).x != t.x
    ensures SameScreen(EchoRun(s0, line + [c]), Echo(t, c))
  {
    EchoRunReady(s0, line);
    EchoRunSnoc(s0, line, c);
    assert [c][0] == c;
    EchoAny(t, c);
  }

  /** A character whose echo scrolled the screen is not where a backspace looks for it. */
  lemma RubAfterScroll(u: Console, c: Byte, t: Console)
    requires Ready(u) && Printable([c]) && Position(u) + 1 >= (COLS - 1) * ROWS && SameScreen(Echo(u, c), t)
    ensures t.y == ROWS - 1 && t.x == 0 && InRange(Echo(t, BACKSPACE)) && !SameScreen(u, Echo(t, BACKSPACE))
  {
    assert [c][0] == c;
  }

  lemma RubInPlace(u: Console, c: Byte, t: Console)
    requires Ready(u) && Printable([c]) && Position(u) + 1 < (COLS - 1) * ROWS && SameScreen(Echo(u, c), t)
    ensures InRange(t) && InRange(Echo(t, BACKSPACE)) && SameScreen(u, Echo(t, BACKSPACE))
  {
    EchoOne(u, c);
    UndoOne(u, c, t);
  }

  /** A backspace on a screen that shows a non-empty line. */
  lemma RubOnScreen(s0: Console, line: seq<Byte>, t: Console)
    requires Ready(s0) && Printable(line) && line != [] && SameScreen(EchoRun(s0, line), t)
    ensures InRange(t) && InRange(Echo(t, BACKSPACE))
    ensures SameScreen(EchoRun(s0, line[..|line| - 1]), Echo(t, BACKSPACE)) <==> !LastScrolled(s0, line)
  {
    var shorter, c := line[..|line| - 1], line[|line| - 1];
    assert line == shorter + [c] && Printable(shorter) && [c][0] == c && Printable([c]);
    EchoRunReady(s0, shorter);
    EchoRunSnoc(s0, shorter, c);
    if LastScrolled(s0, line) {
      RubAfterScroll(EchoRun(s0, shorter), c, t);
    } else {
      RubInPlace(EchoRun(s0, shorter), c, t);
    }
  }

  // ----------------------------------------------------------------- one line being edited

  /** A key press, and the terminal of the process that runs at that moment. */
  datatype Press = Press(sc: Byte, running: Term)

  function After(layout: Layout, d: Desk, p: Press): Desk
    requires Ok(d)
  {
    PressKey(layout, d, p.running, p.sc)
  }

  function LineOf(d: Desk, t: Term): seq<Byte>
    requires Ok(d)
  {
    d.keyboards.keys[t].line
  }

  /** The screen of terminal `t` is what echoing its key buffer from character `n` on would give,
      started on the screen `s0`. */
  ghost predicate Edits(d: Desk, t: Term, s0: Console, n: nat) {
    && Ok(d) && n <= |LineOf(d, t)| <= KEYBUFSIZE && Printable(LineOf(d, t)[n..])
    && SameScreen(EchoRun(s0, LineOf(d, t)[n..]), T.View(d.display, t))
  }

  /** The key stands for printable characters only: not for Enter or tab. */
  ghost predicate Plain(layout: Layout, sc: Byte) {
    forall shift, capital :: var c := layout(sc, shift, capital); c == 0 || Printable([c])
  }

  /** The key types a character into a full buffer, which puts an escape there. */
  predicate Overflows(layout: Layout, d: Desk, sc: Byte)
    requires Ok(d)
  {
    Asks(layout, d, sc).EchoChar? && sc != BACK && |LineOf(d, d.display.currTerm)| >= KEYBUFSIZE
  }

  /** The key clears the screen of terminal `t`, where there is something in front of the cursor; or
      there it rubs out a character before the `n`th, or one whose echo scrolled the screen, or it
      overflows the buffer. */
  predicate Cuts(layout: Layout, d: Desk, p: Press, t: Term, s0: Console, n: nat)
    requires Ok(d)
  {
    var line := LineOf(d, t);
    || (Asks(layout, d, p.sc).ClearScreen? && p.running == t && !(Position(s0) == 0 && |line| == n))
    || (d.display.currTerm == t && p.sc == BACK && n > 0 && |line| == n)
    || (d.display.currTerm == t && p.sc == BACK && |line| > n && LastScrolled(s0, line[n..]))
    || (d.display.currTerm == t && Overflows(layout, d, p.sc))
  }

  /** The line after a plain key, and what the key echoes. */
  lemma PlainKey(layout: Layout, d: Desk, p: Press)
    requires Ok(d) && Plain(layout, p.sc)
    ensures var t, e := d.display.currTerm, Asks(layout, d, p.sc);
      var line, line' := LineOf(d, t), After(layout, d, p).keyboards.keys[t].line;
      if !e.EchoChar? then line' == line
      else if p.sc == BACK then e.c == BACKSPACE && line != [] && line' == line[..|line| - 1]
      else Printable([e.c]) && line' == if |line| < KEYBUFSIZE then line + [e.c] else line[KEYBUFSIZE - 1 := ESCAPE]
  {
  }

  /** A key leaves the buffers of the terminals that are not displayed. */
  lemma OtherLines(layout: Layout, d: Desk, p: Press, t: Term)
    requires Ok(d) && t != d.display.currTerm
    ensures |After(layout, d, p).keyboards.keys| == 3 && After(layout, d, p).keyboards.keys[t] == d.keyboards.keys[t]
  {
  }

  /** Clearing an edited screen gives the edited screen only when nothing was there. */
  lemma ClearIsVisible(s0: Console, line: seq<Byte>, s: Console)
    requires Ready(s0) && Printable(line) && SameScreen(EchoRun(s0, line), s)
    ensures SameScreen(EchoRun(s0, line), Clear(s)) <==> Position(s0) == 0 && line == []
  {
    EchoRunReady(s0, line);
    if Position(s0) == 0 && line == [] {
      BlankIsCleared(s0);
    }
  }

  lemma BlankIsCleared(s: Console)
    requires InRange(s) && BlankAhead(s) && Position(s) == 0
    ensures Clear(s) == s
  {
    forall i: nat | i < COLS * ROWS
      ensures s.page[2 * i] == SPACE && s.page[2 * i + 1] == ATTRIB
    {
      assert CharAt(s.page, i / COLS, i % COLS) == SPACE && AttribAt(s.page, i / COLS, i % COLS) == ATTRIB;
    }
    forall i: nat | i < PAGE_SIZE
      ensures ClearedPage(s.page)[i] == s.page[i]
    {
      assert i == 2 * (i / 2) + i % 2;
    }
  }

  /** A key that echoes nothing on terminal `t` and does not clear it leaves it as it is. */
  lemma LeavesAlone(layout: Layout, d: Desk, p: Press, t: Term, s0: Console, n: nat)
    requires Edits(d, t, s0, n) && Ok(After(layout, d, p))
    requires After(layout, d, p).keyboards.keys[t].line == LineOf(d, t)
    requires T.View(After(layout, d, p).display, t) == T.View(d.display, t)
    ensures Edits(After(layout, d, p), t, s0, n)
  {
  }

  lemma ClearStep(layout: Layout, d: Desk, p: Press, t: Term, s0: Console, n: nat)
    requires Ready(s0) && Edits(d, t, s0, n) && Asks(layout, d, p.sc).ClearScreen? && Plain(layout, p.sc)
    ensures Ok(After(layout, d, p))
    ensures Edits(After(layout, d, p), t, s0, n) <==> !Cuts(layout, d, p, t, s0, n)
  {
    PressKeepsOk(layout, d, p.running, p.sc);
    PlainKey(layout, d, p);
    if t != d.display.currTerm {
      OtherLines(layout, d, p, t);
    }
    if p.running == t {
      T.WithViewIsLocal(d.display, t, Clear(T.View(d.display, t)));
      ClearIsVisible(s0, LineOf(d, t)[n..], T.View(d.display, t));
    } else {
      OneScreenChanges(layout, d, p.running, p.sc, t);
    }
  }

  /** A character typed while a line is edited on the displayed terminal. */
  lemma TypeStep(layout: Layout, d: Desk, p: Press, t: Term, s0: Console, n: nat)
    requires Ready(s0) && Edits(d, t, s0, n) && t == d.display.currTerm
    requires Asks(layout, d, p.sc).EchoChar? && Plain(layout, p.sc) && p.sc != BACK
    ensures Ok(After(layout, d, p))
    ensures Edits(After(layout, d, p), t, s0, n) <==> !Overflows(layout, d, p.sc)
  {
    var c := Asks(layout, d, p.sc).c;
    var line, view := LineOf(d, t), T.View(d.display, t);
    PlainKey(layout, d, p);
    TypeOnScreen(s0, line[n..], c, view);
    EchoInRange(view, c);
    PressKeepsOk(layout, d, p.running, p.sc);
    T.WithViewIsLocal(d.display, t, Echo(view, c));
    var line' := LineOf(After(layout, d, p), t);
    if |line| < KEYBUFSIZE {
      assert line'[n..] == line[n..] + [c] && [c][0] == c;
    } else if n < KEYBUFSIZE {
      assert line'[n..][KEYBUFSIZE - 1 - n] == ESCAPE;
    } else {
      assert line'[n..] == [] && line[n..] == [];
    }
  }

  /** A backspace while a line is edited on the displayed terminal. */
  lemma RubStep(layout: Layout, d: Desk, p: Press, t: Term, s0: Console, n: nat)
    requires Ready(s0) && Edits(d, t, s0, n) && t == d.display.currTerm && |LineOf(d, t)| > n
    requires Asks(layout, d, p.sc).EchoChar? && Plain(layout, p.sc) && p.sc == BACK
    ensures Ok(After(layout, d, p))
    ensures Edits(After(layout, d, p), t, s0, n) <==> !LastScrolled(s0, LineOf(d, t)[n..])
  {
    var line, view := LineOf(d, t), T.View(d.display, t);
    PlainKey(layout, d, p);
    RubOnScreen(s0, line[n..], view);
    EchoInRange(view, BACKSPACE);
    PressKeepsOk(layout, d, p.running, p.sc);
    T.WithViewIsLocal(d.display, t, Echo(view, BACKSPACE));
    assert LineOf(After(layout, d, p), t)[n..] == line[n..][..|line[n..]| - 1];
  }

  /** One key press, anywhere: on its own terminal an edited line keeps the cursor on the screen, and
      the screen stays that of the line if and only if the key does not cut it. */
  lemma PressEdits(layout: Layout, d: Desk, p: Press, t: Term, s0: Console, n: nat)
    requires Ready(s0) && Edits(d, t, s0, n) && Plain(layout, p.sc)
    ensures t == d.display.currTerm && !Cuts(layout, d, p, t, s0, n) ==> Ok(After(layout, d, p))
    ensures Ok(After(layout, d, p)) ==>
      (Edits(After(layout, d, p), t, s0, n) <==> !Cuts(layout, d, p, t, s0, n))
  {
    var e := Asks(layout, d, p.sc);
    if e.ClearScreen? {
      ClearStep(layout, d, p, t, s0, n);
    } else if t != d.display.currTerm {
      if Ok(After(layout, d, p)) {
        OtherLines(layout, d, p, t);
        OneScreenChanges(layout, d, p.running, p.sc, t);
        LeavesAlone(layout, d, p, t, s0, n);
      }
    } else if e.EchoChar? {
      PlainKey(layout, d, p);
      if p.sc != BACK {
        TypeStep(layout, d, p, t, s0, n);
      } else if |LineOf(d, t)| > n {
        RubStep(layout, d, p, t, s0, n);
      }
    } else {
      PressKeepsOk(layout, d, p.running, p.sc);
      PlainKey(layout, d, p);
      if e.SwitchTerm? {
        T.SwitchKeepsViews(d.display, e.n);
      }
      LeavesAlone(layout, d, p, t, s0, n);
    }
  }

  // ---------------------------------------------------------------------- whole sessions

  /** Key presses that keep every cursor on its screen. */
  ghost predicate Session(layout: Layout, d: Desk, ps: seq<Press>)
    decreases |ps|
  {
    Ok(d) && (ps == [] || Session(layout, After(layout, d, ps[0]), ps[1..]))
  }

  /** Only printable characters are typed. */
  ghost predicate TypesPlainly(layout: Layout, ps: seq<Press>) {
    forall k :: 0 <= k < |ps| ==> Plain(layout, ps[k].sc)
  }

  ghost predicate NeverCuts(layout: Layout, d: Desk, ps: seq<Press>, t: Term, s0: Console, n: nat)
    requires Session(layout, d, ps)
    decreases |ps|
  {
    ps == [] || (!Cuts(layout, d, ps[0], t, s0, n) && NeverCuts(layout, After(layout, d, ps[0]), ps[1..], t, s0, n))
  }

  ghost predicate AlwaysEdits(layout: Layout, d: Desk, ps: seq<Press>, t: Term, s0: Console, n: nat)
    requires Session(layout, d, ps)
    decreases |ps|
  {
    Edits(d, t, s0, n) && (ps == [] || AlwaysEdits(layout, After(layout, d, ps[0]), ps[1..], t, s0, n))
  }

  /** Whatever is typed, rubbed out and switched, wherever the cursor was, each terminal's screen is
      throughout the one that echoing just its edited line would give, if and only if no key cuts it:
      with `n` 0, if and only if Ctrl-L does not clear it, while its own process runs, with something
      in front of the cursor, no backspace rubs out a character whose echo scrolled the screen, and
      nothing is typed into a full buffer. */
  lemma {:induction false} ScreenShowsEditedLine(
    layout: Layout, d: Desk, ps: seq<Press>, t: Term, s0: Console, n: nat)
    requires Ready(s0) && Edits(d, t, s0, n) && Session(layout, d, ps) && TypesPlainly(layout, ps)
    ensures AlwaysEdits(layout, d, ps, t, s0, n) <==> NeverCuts(layout, d, ps, t, s0, n)
    decreases |ps|
  {
    if ps != [] {
      PressEdits(layout, d, ps[0], t, s0, n);
      if !Cuts(layout, d, ps[0], t, s0, n) {
        ScreenShowsEditedLine(layout, After(layout, d, ps[0]), ps[1..], t, s0, n);
      }
    }
  }

  /** Where it starts: an empty key buffer, on whatever screen there is. */
  lemma EditingStarts(d: Desk, t: Term)
    requires Ok(d) && LineOf(d, t) == [] && Ready(T.View(d.display, t))
    ensures Edits(d, t, T.View(d.display, t), 0)
  {
  }

  /** And where it goes on after a clear: on a blank screen, with what is typed from then on, while
      the key buffer keeps the characters typed before. */
  lemma ClearStartsAfresh(layout: Layout, d: Desk, p: Press)
    requires Ok(d) && Asks(layout, d, p.sc).ClearScreen? && |LineOf(d, p.running)| <= KEYBUFSIZE
    ensures var d' := After(layout, d, p);
      && Ok(d') && LineOf(d', p.running) == LineOf(d, p.running)
      && T.View(d'.display, p.running) == Clear(T.View(d.display, p.running))
      && Ready(T.View(d'.display, p.running))
      && Edits(d', p.running, T.View(d'.display, p.running), |LineOf(d, p.running)|)
  {
    PressKeepsOk(layout, d, p.running, p.sc);
    T.WithViewIsLocal(d.display, p.running, Clear(T.View(d.display, p.running)));
    ClearedIsReady(T.View(d.display, p.running));
  }

  lemma ClearedIsReady(s: Console)
    ensures Ready(Clear(s))
  {
    forall r: nat, col: nat | r < ROWS && col < COLS
      ensures CharAt(ClearedPage(s.page), r, col) == SPACE && AttribAt(ClearedPage(s.page), r, col) == ATTRIB
    {
    }
  }

  /** The letters q and l and the ctrl key are plain keys. */
  lemma PlainKeys()
    ensures Plain(CharOf, Q) && Plain(CharOf, PRESS_CTRL) && Plain(CharOf, L)
  {
  }

  /** A letter on an empty line. */
  lemma LetterIsTyped(d: Desk, t: Term)
    requires Ok(d) && d.display.currTerm == t && d.keyboards.keys[t] == INITIAL && Ready(T.View(d.display, t))
    ensures var d1 := After(CharOf, d, Press(Q, t));
      && Edits(d1, t, T.View(d.display, t), 0) && d1.display.currTerm == t
      && d1.keyboards.keys[t] == INITIAL.(line := [Ascii('q')])
      && InRange(T.View(d.display, t)) && T.View(d1.display, t) == Echo(T.View(d.display, t), Ascii('q'))
  {
    PlainKeys();
    EditingStarts(d, t);
    PressEdits(CharOf, d, Press(Q, t), t, T.View(d.display, t), 0);
    T.WithViewIsLocal(d.display, t, Echo(T.View(d.display, t), Ascii('q')));
  }

  /** Holding ctrl down changes a flag only. */
  lemma CtrlIsHeld(d: Desk, t: Term, s0: Console)
    requires Ready(s0) && Edits(d, t, s0, 0) && d.display.currTerm == t
    requires d.keyboards.keys[t] == INITIAL.(line := [Ascii('q')])
    ensures var d2 := After(CharOf, d, Press(PRESS_CTRL, t));
      && Edits(d2, t, s0, 0) && d2.display.currTerm == t && LineOf(d2, t) == [Ascii('q')]
      && Asks(CharOf, d2, L).ClearScreen?
  {
    PlainKeys();
    PressEdits(CharOf, d, Press(PRESS_CTRL, t), t, s0, 0);
  }

  /** Clearing an edited screen while something is in the line: the line stays, the screen is blank. */
  lemma ClearLosesLine(layout: Layout, d: Desk, p: Press, s0: Console)
    requires Ready(s0) && Edits(d, p.running, s0, 0) && Plain(layout, p.sc)
    requires Asks(layout, d, p.sc).ClearScreen? && LineOf(d, p.running) != []
    ensures Cuts(layout, d, p, p.running, s0, 0)
    ensures var d' := After(layout, d, p);
      && Ok(d') && LineOf(d', p.running) == LineOf(d, p.running) && !Edits(d', p.running, s0, 0)
      && T.View(d'.display, p.running) == Clear(T.View(d.display, p.running))
  {
    ClearStep(layout, d, p, p.running, s0, 0);
    ClearStartsAfresh(layout, d, p);
  }

  /** The failing case: a letter and then Ctrl-L, on a terminal whose process runs. The letter is
      still in the buffer, but the screen is blank. */
  lemma ClearedLineIsLost(d: Desk, t: Term)
    requires Ok(d) && d.display.currTerm == t && d.keyboards.keys[t] == INITIAL && Ready(T.View(d.display, t))
    ensures Plain(CharOf, Q) && Plain(CharOf, PRESS_CTRL) && Plain(CharOf, L)
    ensures var s0, d1 := T.View(d.display, t), After(CharOf, d, Press(Q, t));
      && Ok(d1) && var d2 := After(CharOf, d1, Press(PRESS_CTRL, t));
      && Ok(d2) && Edits(d2, t, s0, 0) && Cuts(CharOf, d2, Press(L, t), t, s0, 0)
      && var d3 := After(CharOf, d2, Press(L, t));
      && Ok(d3) && LineOf(d3, t) == [Ascii('q')] && !Edits(d3, t, s0, 0)
      && T.View(d3.display, t) == Clear(T.View(d2.display, t))
  {
    PlainKeys();
    LetterIsTyped(d, t);
    var d1 := After(CharOf, d, Press(Q, t));
    CtrlIsHeld(d1, t, T.View(d.display, t));
    var d2 := After(CharOf, d1, Press(PRESS_CTRL, t));
    ClearLosesLine(CharOf, d2, Press(L, t), T.View(d.display, t));
  }

  /** The scroll puts the cursor at the start of the last row, so that the wrap test fails. */
  lemma WrapAtBottom(s: Console, c: Byte)
    requires Ready(s) && s.x == COLS - 2 && s.y == ROWS - 1 && !s.runon && Printable([c])
    ensures var u := Echo(s, c);
      && InRange(u) && var v := Echo(u, BACKSPACE);
      && InRange(v) && v.x == 0 && v.y == ROWS - 1 && CharAt(v.page, ROWS - 2, COLS - 2) == c
  {
    assert [c][0] == c;
    var page := Poke(s.page, Cell(s), c);
    PokeCell(s.page, ROWS - 1, COLS - 2, c, ROWS - 1, COLS - 2);
    ScrollCell(page, ROWS - 2, COLS - 2);
    PokeCell(ScrolledPage(page), ROWS - 1, 0, SPACE, ROWS - 2, COLS - 2);
  }

  lemma BackspaceAfterScroll(d: Desk, t: Term, s0: Console)
    requires Ready(s0) && Edits(d, t, s0, 0) && d.display.currTerm == t && Position(s0) + 1 >= (COLS - 1) * ROWS
    requires d.keyboards.keys[t] == INITIAL.(line := [Ascii('q')]) && InRange(T.View(d.display, t))
    ensures Cuts(CharOf, d, Press(BACK, t), t, s0, 0)
    ensures var d2 := After(CharOf, d, Press(BACK, t));
      && Ok(d2) && LineOf(d2, t) == [] && !Edits(d2, t, s0, 0)
      && T.View(d2.display, t) == Echo(T.View(d.display, t), BACKSPACE)
  {
    assert LineOf(d, t)[0..] == [Ascii('q')] && [Ascii('q')][..0] == [];
    RubStep(CharOf, d, Press(BACK, t), t, s0, 0);
    T.WithViewIsLocal(d.display, t, Echo(T.View(d.display, t), BACKSPACE));
  }

  /** The other failing case: a letter in the last column of the last row, on a line that has not
      wrapped before. After a backspace the letter has left the buffer but is still on the screen. */
  lemma RubbedLetterStays(d: Desk, t: Term)
    requires Ok(d) && d.display.currTerm == t && d.keyboards.keys[t] == INITIAL && Ready(T.View(d.display, t))
    requires var s0 := T.View(d.display, t); s0.x == COLS - 2 && s0.y == ROWS - 1 && !s0.runon
    ensures var s0, d1 := T.View(d.display, t), After(CharOf, d, Press(Q, t));
      && Ok(d1) && Edits(d1, t, s0, 0) && Cuts(CharOf, d1, Press(BACK, t), t, s0, 0)
      && var d2 := After(CharOf, d1, Press(BACK, t));
      && Ok(d2) && LineOf(d2, t) == [] && !Edits(d2, t, s0, 0)
      && var s := T.View(d2.display, t);
         s.x == 0 && s.y == ROWS - 1 && CharAt(s.page, ROWS - 2, COLS - 2) == Ascii('q')
  {
    var s0, c := T.View(d.display, t), Ascii('q');
    LetterIsTyped(d, t);
    assert [c][0] == c && Printable([c]);
    WrapAtBottom(s0, c);
    BackspaceAfterScroll(After(CharOf, d, Press(Q, t)), t, s0);
  }
}
