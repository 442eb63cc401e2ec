/** What a key does beyond its own terminal's keyboard state: the screen effect that the handler
    asks for, carried out on the three terminals. */
module KeyEffects {
  import opened Bytes
  import opened Keyboard
  import opened Screen
  import T = Terminals

  /** The keyboards and the display, which agree on the displayed terminal. */
  datatype Desk = Desk(keyboards: Keyboards, display: T.Display)

  predicate Ok(d: Desk) {
    Three(d.keyboards) && T.OnScreen(d.display) && d.keyboards.currTerm == d.display.currTerm
  }

  function Asks(layout: Layout, d: Desk, sc: Byte): Keyboard.Effect
    requires Ok(d)
  {
    Handle(layout, d.keyboards.keys[d.keyboards.currTerm], sc).1
  }

  /** Echo and switch work on the displayed terminal, but clear() on that of the running process. */
  function Shown(display: T.Display, effect: Keyboard.Effect, running: Term): T.Display
    requires T.OnScreen(display)
  {
    match effect
    case Nothing => display
    case EchoChar(c) => T.Step(display, T.KeyEcho(c))
    case ClearScreen => T.Step(display, T.ClearAt(running))
    case SwitchTerm(n) => T.Step(display, T.SwitchTo(n))
  }

  function PressKey(layout: Layout, d: Desk, running: Term, sc: Byte): Desk
    requires Ok(d)
  {
    Desk(Deliver(layout, d.keyboards, KeyPress(sc)), Shown(d.display, Asks(layout, d, sc), running))
  }

  /** A key keeps keyboards and display on the same terminal, and every cursor on its screen, if
      and only if what it echoes is safe where the cursor is. */
  lemma PressKeepsOk(layout: Layout, d: Desk, running: Term, sc: Byte)
    requires Ok(d)
    ensures Ok(PressKey(layout, d, running, sc)) <==>
      var e := Asks(layout, d, sc);
      e.EchoChar? ==> EchoSafe(T.View(d.display, d.display.currTerm), e.c)
  {
    var display, e := d.display, Asks(layout, d, sc);
    match e
    case Nothing =>
    case EchoChar(c) =>
      EchoInRange(T.View(display, display.currTerm), c);
      T.WithViewIsLocal(display, display.currTerm, Echo(T.View(display, display.currTerm), c));
    case ClearScreen => T.WithViewIsLocal(display, running, Clear(T.View(display, running)));
    case SwitchTerm(n) => T.SwitchKeepsViews(display, n);
  }

  /** The keyboard can reach the unsafe corner: on a terminal that has wrapped a line, while its own
      process runs, Ctrl-L and then Backspace on an unfinished line take the cursor off the screen;
      the cell written is two in front of the page. */
  lemma ClearThenBackspace(layout: Layout, d: Desk, running: Term)
    requires Ok(d) && running == d.display.currTerm
    requires var k := d.keyboards.keys[running];
      k.ctrl && k.line != [] && T.View(d.display, running).runon
    ensures var d' := PressKey(layout, d, running, L);
      && Ok(d') && d'.display.currTerm == running && !Ok(PressKey(layout, d', running, BACK))
      && Asks(layout, d', BACK) == EchoChar(BACKSPACE) && Cell(Back(T.View(d'.display, running))) == -2
  {
    PressKeepsOk(layout, d, running, L);
    var d' := PressKey(layout, d, running, L);
    T.WithViewIsLocal(d.display, running, Clear(T.View(d.display, running)));
    PressKeepsOk(layout, d', running, BACK);
  }

  /** A key changes at most one logical screen: the displayed terminal's, or with Ctrl-L that of the
      terminal whose process happens to run. */
  lemma OneScreenChanges(layout: Layout, d: Desk, running: Term, sc: Byte, t: Term)
    requires Ok(d)
    requires t != if Asks(layout, d, sc).ClearScreen? then running else d.display.currTerm
    ensures T.Valid(PressKey(layout, d, running, sc).display)
    ensures T.View(PressKey(layout, d, running, sc).display, t) == T.View(d.display, t)
  {
    var display, e := d.display, Asks(layout, d, sc);
    match e
    case Nothing =>
    case EchoChar(c) => T.WithViewIsLocal(display, display.currTerm, Echo(T.View(display, display.currTerm), c));
    case ClearScreen => T.WithViewIsLocal(display, running, Clear(T.View(display, running)));
    case SwitchTerm(n) => T.SwitchKeepsViews(display, n);
  }

  /** Ctrl-L blanks the page the user sees if and only if the running process belongs to the
      displayed terminal, or the page was blank before. */
  lemma ClearKeyClearsWhatIsSeen(layout: Layout, d: Desk, running: Term, sc: Byte)
    requires Ok(d) && Asks(layout, d, sc).ClearScreen?
    ensures var d' := PressKey(layout, d, running, sc);
      && |d'.display.pages| == |d.display.pages| == 4
      && (d'.display.pages[0] == ClearedPage(d.display.pages[0]) <==>
            running == d.display.currTerm || d.display.pages[0] == ClearedPage(d.display.pages[0]))
  {
  }
}
