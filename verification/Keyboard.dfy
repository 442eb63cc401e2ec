/** The keyboard handler and the line buffer of one terminal (student-distrib/keyboard.c,
    term_read of student-distrib/terminal.c), and what they compute from the key history. */
module Keyboard {
  import opened Bytes
  import T = Terminals

  const KEYBUFSIZE := 128

  const ONE := 0x02
  const ZERO := 0x0b
  const Q := 0x10
  const P := 0x19
  const A := 0x1e
  const L := 0x26
  const Z := 0x2c
  const M := 0x32
  const TAB_KEY := 0x0F
  const BACK := 0x0E
  const ENTER := 0x1C
  const SPACEBAR := 0x39
  const F1 := 0x3B
  const F2 := 0x3C
  const F3 := 0x3D
  const EZERO := 0xE0
  const PRESS_CTRL := 0x1D
  const RELEASE_CTRL := 0x9D
  const PRESS_ALT := 0x38
  const RELEASE_ALT := 0xB8
  const PRESS_L_SHIFT := 0x2A
  const PRESS_R_SHIFT := 0x36
  const RELEASE_L_SHIFT := 0xAA
  const RELEASE_R_SHIFT := 0xB6
  const PRESS_CAPS_LOCK := 0x3A
  const DASH := 0x0C
  const EQUAL := 0x0D
  const LBRACK := 0x1A
  const RBRACK := 0x1B
  const SEMI := 0x27
  const QUOTE := 0x28
  const TICK := 0x29
  const BSLASH := 0x2B
  const COMMA := 0x33
  const PERIOD := 0x34
  const SLASH := 0x35
  const CAPS := 32

  type Term = T.Term

  function Ascii(c: char): Byte
    requires c as int < 256
  {
    c as int
  }

  const NUMBERS := "1234567890"
  const SYMBOLS := "!@#$%^&*()"
  const CHARACTERS_1 := "qwertyuiop"
  const CHARACTERS_2 := "asdfghjkl"
  const CHARACTERS_3 := "zxcvbnm"

  function Pick(table: string, i: int): Byte {
    if 0 <= i < |table| && table[i] as int < 256 then Ascii(table[i]) else 0
  }

  function Letter(table: string, i: int, capital: bool): Byte {
    var c := Pick(table, i);
    if capital && c >= CAPS then c - CAPS else c
  }

  function Either(shift: bool, plain: char, shifted: char): Byte
    requires plain as int < 256 && shifted as int < 256
  {
    Ascii(if shift then shifted else plain)
  }

  /** The character a key stands for; 0 for none. */
  function CharOf(sc: Byte, shift: bool, capital: bool): Byte {
    if ONE <= sc <= ZERO then Pick(if shift then SYMBOLS else NUMBERS, sc - ONE)
    else if Q <= sc <= P then Letter(CHARACTERS_1, sc - Q, capital)
    else if A <= sc <= L then Letter(CHARACTERS_2, sc - A, capital)
    else if Z <= sc <= M then Letter(CHARACTERS_3, sc - Z, capital)
    else if sc == DASH then Either(shift, '-', '_')
    else if sc == EQUAL then Either(shift, '=', '+')
    else if sc == LBRACK then Either(shift, '[', '{')
    else if sc == RBRACK then Either(shift, ']', '}')
    else if sc == SEMI then Either(shift, ';', ':')
    else if sc == QUOTE then Either(shift, '\'', '"')
    else if sc == TICK then Either(shift, '`', '~')
    else if sc == BSLASH then Either(shift, '\\', '|')
    else if sc == COMMA then Either(shift, ',', '<')
    else if sc == PERIOD then Either(shift, '.', '>')
    else if sc == SLASH then Either(shift, '/', '?')
    else if sc == TAB_KEY then TAB
    else if sc == SPACEBAR then SPACE
    else if sc == ENTER then NEWLINE
    else 0
  }

  /** A letter key gives its lower-case letter, or the capital of it. */
  lemma LetterKeys(sc: Byte, shift: bool)
    requires Q <= sc <= P || A <= sc <= L || Z <= sc <= M
    ensures 'a' as int <= CharOf(sc, shift, false) <= 'z' as int
    ensures CharOf(sc, shift, true) == CharOf(sc, shift, false) - CAPS
  {
  }

  /** The letter keys, row by row of a US keyboard; shift only counts through the capitals. */
  lemma LetterRows(i: nat, shift: bool)
    ensures i < 10 ==> CharOf(0x10 + i, shift, false) == Ascii("qwertyuiop"[i])
    ensures i < 10 ==> CharOf(0x10 + i, shift, true) == Ascii("QWERTYUIOP"[i])
    ensures i < 9 ==> CharOf(0x1e + i, shift, false) == Ascii("asdfghjkl"[i])
    ensures i < 9 ==> CharOf(0x1e + i, shift, true) == Ascii("ASDFGHJKL"[i])
    ensures i < 7 ==> CharOf(0x2c + i, shift, false) == Ascii("zxcvbnm"[i])
    ensures i < 7 ==> CharOf(0x2c + i, shift, true) == Ascii("ZXCVBNM"[i])
  {
  }

  /** The number keys; caps lock does not count for them, nor for the other keys below. */
  lemma NumberKeys(i: nat, capital: bool)
    requires i < 10
    ensures CharOf(0x02 + i, false, capital) == Ascii("1234567890"[i])
    ensures CharOf(0x02 + i, true, capital) == Ascii("!@#$%^&*()"[i])
  {
  }

  const PUNCTUATION: seq<(Byte, char, char)> := [
    (0x0C, '-', '_'), (0x0D, '=', '+'), (0x1A, '[', '{'), (0x1B, ']', '}'), (0x27, ';', ':'), (0x28, '\'', '"'),
    (0x29, '`', '~'), (0x2B, '\\', '|'), (0x33, ',', '<'), (0x34, '.', '>'), (0x35, '/', '?')]

  lemma PunctuationKeys(i: nat, capital: bool)
    requires i < |PUNCTUATION|
    ensures var (sc, plain, shifted) := PUNCTUATION[i];
      && plain as int < 256 && shifted as int < 256
      && CharOf(sc, false, capital) == Ascii(plain) && CharOf(sc, true, capital) == Ascii(shifted)
  {
  }

  /** Tab, space and Enter; and the keys that stand for no character: all others, also every release. */
  lemma OtherKeys(sc: Byte, shift: bool, capital: bool)
    ensures CharOf(0x0F, shift, capital) == 9 && CharOf(0x39, shift, capital) == 32 && CharOf(0x1C, shift, capital) == 10
    ensures CharOf(sc, shift, capital) == 0 <==>
      sc < 0x02 || sc == 0x0E || sc == 0x1D || sc == 0x2A || 0x36 <= sc <= 0x38 || sc > 0x39
  {
  }

  // --------------------------------------------------------------- the handler's state

  /** The keyboard part of termdata_t; `line` is keybuf up to buflen, `waiting` is enter_pressed. */
  datatype Keys = Keys(
    shift: bool, ctrl: bool, alt: bool, capsLock: bool, capsCount: nat, eZero: bool, waiting: bool, line: seq<Byte>)

  const INITIAL := Keys(false, false, false, false, 0, false, true, [])

  /** What a key does outside the keyboard state. */
  datatype Effect = Nothing | EchoChar(c: Byte) | ClearScreen | SwitchTerm(n: Term)

  function Flags(k: Keys, sc: Byte): Keys {
    k.(eZero := k.eZero || sc == EZERO,
       shift := if sc == PRESS_L_SHIFT || sc == PRESS_R_SHIFT then true
                else if sc == RELEASE_L_SHIFT || sc == RELEASE_R_SHIFT then false else k.shift,
       ctrl := if sc == PRESS_CTRL then true else if sc == RELEASE_CTRL then false else k.ctrl,
       alt := if sc == PRESS_ALT then true else if sc == RELEASE_ALT then false else k.alt,
       capsLock := if sc == PRESS_CAPS_LOCK then k.capsCount % 2 == 0 else k.capsLock,
       capsCount := if sc == PRESS_CAPS_LOCK then k.capsCount + 1 else k.capsCount)
  }

  /** The buffer after one more character; a full buffer gets its last byte overwritten. */
  function Push(line: seq<Byte>, c: Byte): seq<Byte> {
    if |line| < KEYBUFSIZE then line + [c] else line[KEYBUFSIZE - 1 := ESCAPE]
  }

  /** Which character, if any, a key stands for, given the shift and capital flags. The claims
      below hold for every layout; the driver uses CharOf. */
  type Layout = (Byte, bool, bool) -> Byte

  /** What the key asks for once the flags are up to date. */
  function Request(layout: Layout, k: Keys, sc: Byte): Effect {
    if sc == L && k.ctrl then ClearScreen
    else if sc == F1 && k.alt then SwitchTerm(0)
    else if sc == F2 && k.alt then SwitchTerm(1)
    else if sc == F3 && k.alt then SwitchTerm(2)
    else if sc == BACK then if k.line != [] then EchoChar(BACKSPACE) else Nothing
    else
      var c := layout(sc, k.shift, k.shift != k.capsLock);
      if c == 0 then Nothing else EchoChar(c)
  }

  /** The line after the key. */
  function Edited(layout: Layout, k: Keys, sc: Byte): seq<Byte> {
    var e := Request(layout, k, sc);
    if !e.EchoChar? then k.line
    else if sc == BACK then k.line[..|k.line| - 1]
    else Push(k.line, e.c)
  }

  function Handle(layout: Layout, k: Keys, sc: Byte): (Keys, Effect) {
    var f := Flags(k, sc);
    (f.(line := Edited(layout, f, sc), waiting := f.waiting && sc != ENTER, eZero := sc == EZERO),
     Request(layout, f, sc))
  }

  // ------------------------------------------------------------ reading the line

  /** How many bytes term_read(n) copies; a negative n compares as a large unsigned number. */
  function ReadCount(line: seq<Byte>, n: int): nat {
    if n < 0 then |line| else Min(Min(n, KEYBUFSIZE), |line|)
  }

  /** A key reaches this terminal, or its process reads a line. */
  datatype Input = Key(sc: Byte) | ReadLine(n: int)

  /** A read of a line that is not finished keeps waiting; otherwise it empties the buffer. */
  function Step(layout: Layout, k: Keys, i: Input): Keys {
    match i
    case Key(sc) => Handle(layout, k, sc).0
    case ReadLine(_) => if k.waiting then k else k.(waiting := true, line := [])
  }

  function Run(layout: Layout, k: Keys, h: seq<Input>): Keys
    decreases |h|
  {
    if h == [] then k else Step(layout, Run(layout, k, h[..|h| - 1]), h[|h| - 1])
  }

  // -------------------------------------------------- the same from the history alone

  predicate Pressed(i: Input, a: Byte, b: Byte) {
    i == Key(a) || i == Key(b)
  }

  /** The last of the given press and release keys was a press. */
  predicate Held(h: seq<Input>, press: (Byte, Byte), release: (Byte, Byte))
    decreases |h|
  {
    h != [] &&
    (Pressed(h[|h| - 1], press.0, press.1) ||
     (!Pressed(h[|h| - 1], release.0, release.1) && Held(h[..|h| - 1], press, release)))
  }

  predicate ShiftHeld(h: seq<Input>) {
    Held(h, (PRESS_L_SHIFT, PRESS_R_SHIFT), (RELEASE_L_SHIFT, RELEASE_R_SHIFT))
  }

  predicate CtrlHeld(h: seq<Input>) {
    Held(h, (PRESS_CTRL, PRESS_CTRL), (RELEASE_CTRL, RELEASE_CTRL))
  }

  predicate AltHeld(h: seq<Input>) {
    Held(h, (PRESS_ALT, PRESS_ALT), (RELEASE_ALT, RELEASE_ALT))
  }

  function CapsPresses(h: seq<Input>): nat
    decreases |h|
  {
    if h == [] then 0
    else CapsPresses(h[..|h| - 1]) + (if h[|h| - 1] == Key(PRESS_CAPS_LOCK) then 1 else 0)
  }

  /** Letters are capital when exactly one of shift and an odd number of caps presses holds. */
  predicate Capital(h: seq<Input>) {
    ShiftHeld(h) != (CapsPresses(h) % 2 == 1)
  }

  /** Enter has been pressed since the last completed read. */
  predicate Entered(h: seq<Input>)
    decreases |h|
  {
    h != [] && (h[|h| - 1] == Key(ENTER) || (h[|h| - 1].Key? && Entered(h[..|h| - 1])))
  }

  /** The unbounded line being edited: characters are appended, a backspace drops the last. */
  function Line(layout: Layout, h: seq<Input>): seq<Byte>
    decreases |h|
  {
    if h == [] then []
    else
      var before := Line(layout, h[..|h| - 1]);
      match h[|h| - 1]
      case ReadLine(_) => if Entered(h[..|h| - 1]) then [] else before
      case Key(sc) =>
        if sc == BACK then if before == [] then [] else before[..|before| - 1]
        else if (sc == L && CtrlHeld(h)) || ((sc == F1 || sc == F2 || sc == F3) && AltHeld(h)) then before
        else
          var c := layout(sc, ShiftHeld(h), Capital(h));
          if c == 0 then before else before + [c]
  }

  /** The last key was the E0 prefix. */
  predicate Prefixed(h: seq<Input>)
    decreases |h|
  {
    h != [] && (h[|h| - 1] == Key(EZERO) || (h[|h| - 1].ReadLine? && Prefixed(h[..|h| - 1])))
  }

  /** The flags depend on the history as stated, and the caps flag is the parity of presses. */
  lemma {:induction false} FlagsFollowHistory(layout: Layout, h: seq<Input>)
    ensures var k := Run(layout, INITIAL, h);
      && k.shift == ShiftHeld(h) && k.ctrl == CtrlHeld(h) && k.alt == AltHeld(h)
      && k.capsCount == CapsPresses(h) && k.capsLock == (CapsPresses(h) % 2 == 1)
      && k.waiting == !Entered(h)
    decreases |h|
  {
    if h != [] {
      FlagsFollowHistory(layout, h[..|h| - 1]);
    }
  }

  lemma {:induction false} PrefixFollowsHistory(layout: Layout, h: seq<Input>)
    ensures Run(layout, INITIAL, h).eZero == Prefixed(h)
    decreases |h|
  {
    if h != [] {
      PrefixFollowsHistory(layout, h[..|h| - 1]);
    }
  }

  /** The typed line never outgrows the key buffer, in any prefix of the history. */
  ghost predicate Fits(layout: Layout, h: seq<Input>)
    decreases |h|
  {
    |Line(layout, h)| <= KEYBUFSIZE && (h == [] || Fits(layout, h[..|h| - 1]))
  }

  ghost predicate Refines(layout: Layout, h: seq<Input>)
    decreases |h|
  {
    Run(layout, INITIAL, h).line == Line(layout, h) && (h == [] || Refines(layout, h[..|h| - 1]))
  }

  lemma {:induction false} BufferIsBounded(layout: Layout, h: seq<Input>)
    ensures |Run(layout, INITIAL, h).line| <= KEYBUFSIZE
    decreases |h|
  {
    if h != [] {
      BufferIsBounded(layout, h[..|h| - 1]);
    }
  }

  lemma {:induction false} FittingRefines(layout: Layout, h: seq<Input>)
    requires Fits(layout, h)
    ensures Refines(layout, h)
    decreases |h|
  {
    if h != [] {
      var before := h[..|h| - 1];
      assert before + [h[|h| - 1]] == h;
      FittingRefines(layout, before);
      LineStep(layout, before, h[|h| - 1]);
    }
  }

  /** One step of the handler is one edit of the line, as long as the edited line fits. */
  lemma LineStep(layout: Layout, h: seq<Input>, i: Input)
    requires Run(layout, INITIAL, h).line == Line(layout, h) && |Line(layout, h + [i])| <= KEYBUFSIZE
    ensures Run(layout, INITIAL, h + [i]).line == Line(layout, h + [i])
  {
    var h' := h + [i];
    assert h'[..|h'| - 1] == h;
    FlagsFollowHistory(layout, h);
    FlagsFollowHistory(layout, h');
  }

  /** The key buffer is the edited line throughout a history exactly when the line never
      exceeds the buffer. */
  lemma {:induction false} BufferIsLine(layout: Layout, h: seq<Input>)
    ensures Refines(layout, h) <==> Fits(layout, h)
    decreases |h|
  {
    if Fits(layout, h) {
      FittingRefines(layout, h);
    }
    if Refines(layout, h) {
      RefiningFits(layout, h);
    }
  }

  lemma {:induction false} RefiningFits(layout: Layout, h: seq<Input>)
    requires Refines(layout, h)
    ensures Fits(layout, h)
    decreases |h|
  {
    BufferIsBounded(layout, h);
    if h != [] {
      RefiningFits(layout, h[..|h| - 1]);
    }
  }

  // ------------------------------------------------------------ the three terminals

  /** Keys go to the displayed terminal. */
  datatype Keyboards = Keyboards(keys: seq<Keys>, currTerm: int)

  datatype Event = KeyPress(sc: Byte) | ReadBy(t: Term, n: int)

  predicate Three(s: Keyboards) {
    |s.keys| == T.MAX_TERM && 0 <= s.currTerm < T.MAX_TERM
  }

  function Deliver(layout: Layout, s: Keyboards, e: Event): Keyboards
    requires Three(s)
  {
    match e
    case ReadBy(t, n) => s.(keys := s.keys[t := Step(layout, s.keys[t], ReadLine(n))])
    case KeyPress(sc) =>
      var (k, effect) := Handle(layout, s.keys[s.currTerm], sc);
      Keyboards(s.keys[s.currTerm := k], if effect.SwitchTerm? then effect.n else s.currTerm)
  }

  function DeliverAll(layout: Layout, s: Keyboards, es: seq<Event>): (r: Keyboards)
    requires Three(s)
    ensures Three(r)
    decreases |es|
  {
    if es == [] then s else DeliverAll(layout, Deliver(layout, s, es[0]), es[1..])
  }

  /** What reaches terminal `t`. */
  function Received(layout: Layout, s: Keyboards, es: seq<Event>, t: Term): seq<Input>
    requires Three(s)
    decreases |es|
  {
    if es == [] then []
    else
      (match es[0]
       case ReadBy(u, n) => if u == t then [ReadLine(n)] else []
       case KeyPress(sc) => if s.currTerm == t then [Key(sc)] else [])
      + Received(layout, Deliver(layout, s, es[0]), es[1..], t)
  }

  lemma {:induction false} RunConcat(layout: Layout, k: Keys, a: seq<Input>, b: seq<Input>)
    ensures Run(layout, k, a + b) == Run(layout, Run(layout, k, a), b)
    decreases |b|
  {
    if b == [] {
      assert a + b == a;
    } else {
      RunConcat(layout, k, a, b[..|b| - 1]);
      assert (a + b)[..|a + b| - 1] == a + b[..|b| - 1];
    }
  }

  /** Each terminal's keyboard is the run of the handler on what that terminal received. */
  lemma {:induction false} KeyboardsAreIndependent(layout: Layout, s: Keyboards, es: seq<Event>, t: Term)
    requires Three(s)
    ensures DeliverAll(layout, s, es).keys[t] == Run(layout, s.keys[t], Received(layout, s, es, t))
    decreases |es|
  {
    if es != [] {
      var s' := Deliver(layout, s, es[0]);
      var rest := Received(layout, s', es[1..], t);
      KeyboardsAreIndependent(layout, s', es[1..], t);
      var first := Received(layout, s, es, t)[..|Received(layout, s, es, t)| - |rest|];
      assert Received(layout, s, es, t) == first + rest;
      RunConcat(layout, s.keys[t], first, rest);
      assert first == [] || Run(layout, s.keys[t], first) == Step(layout, Run(layout, s.keys[t], []), first[0]) by {
        if first != [] {
          assert first[..0] == [];
        }
      }
    }
  }

  /** Line discipline: for any interleaving of keys, switches and reads, a terminal whose line
      never outgrew its buffer holds the edited line of what it received, and a read after
      Enter takes the first bytes of that line. */
  lemma LineDiscipline(layout: Layout, es: seq<Event>, currTerm: Term, t: Term, n: int)
    requires Fits(layout, Received(layout, Keyboards([INITIAL, INITIAL, INITIAL], currTerm), es, t))
    ensures var s := Keyboards([INITIAL, INITIAL, INITIAL], currTerm);
      var h := Received(layout, s, es, t);
      var k := DeliverAll(layout, s, es).keys[t];
      && k.line == Line(layout, h) && k.waiting == !Entered(h)
      && ReadCount(k.line, n) == if n < 0 then |Line(layout, h)| else Min(n, |Line(layout, h)|)
  {
    var s := Keyboards([INITIAL, INITIAL, INITIAL], currTerm);
    KeyboardsAreIndependent(layout, s, es, t);
    BufferIsLine(layout, Received(layout, s, es, t));
    FlagsFollowHistory(layout, Received(layout, s, es, t));
  }

  // ------------------------------------------------------- modifiers across switches

  datatype Modifier = Shift | Ctrl | Alt

  predicate Presses(m: Modifier, sc: Byte) {
    match m
    case Shift => sc == PRESS_L_SHIFT || sc == PRESS_R_SHIFT
    case Ctrl => sc == PRESS_CTRL
    case Alt => sc == PRESS_ALT
  }

  predicate Releases(m: Modifier, sc: Byte) {
    match m
    case Shift => sc == RELEASE_L_SHIFT || sc == RELEASE_R_SHIFT
    case Ctrl => sc == RELEASE_CTRL
    case Alt => sc == RELEASE_ALT
  }

  function Flag(k: Keys, m: Modifier): bool {
    match m
    case Shift => k.shift
    case Ctrl => k.ctrl
    case Alt => k.alt
  }

  /** The key event presses or releases the modifier. */
  predicate Moves(m: Modifier, e: Event) {
    e.KeyPress? && (Presses(m, e.sc) || Releases(m, e.sc))
  }

  /** The modifier key itself, wherever its events went: `down` at first, then the last event's. */
  function KeyDown(m: Modifier, down: bool, es: seq<Event>): bool
    decreases |es|
  {
    if es == [] then down
    else
      var e := es[|es| - 1];
      if Moves(m, e) then Presses(m, e.sc) else KeyDown(m, down, es[..|es| - 1])
  }

  /** Input `r` releases the modifier and no later input presses it. */
  ghost predicate ReleasedAt(m: Modifier, h: seq<Input>, r: nat) {
    && r < |h| && h[r].Key? && Releases(m, h[r].sc)
    && forall j :: r < j < |h| && h[j].Key? ==> !Presses(m, h[j].sc)
  }

  /** A release has come after the last press. */
  ghost predicate ReleasedLast(m: Modifier, h: seq<Input>) {
    exists r: nat :: ReleasedAt(m, h, r)
  }

  lemma ReleasedLonger(m: Modifier, h: seq<Input>, i: Input)
    ensures ReleasedLast(m, h + [i]) <==>
      (i.Key? && Releases(m, i.sc)) || (ReleasedLast(m, h) && !(i.Key? && Presses(m, i.sc)))
  {
    var longer := h + [i];
    assert longer[|h|] == i;
    if i.Key? && Releases(m, i.sc) {
      assert ReleasedAt(m, longer, |h|);
    } else {
      forall r: nat | r < |h|
        ensures ReleasedAt(m, longer, r) <==> ReleasedAt(m, h, r) && !(i.Key? && Presses(m, i.sc))
      {
        assert longer[r] == h[r];
        assert forall j :: r < j < |h| ==> longer[j] == h[j];
      }
      assert !ReleasedAt(m, longer, |h|);
    }
  }

  lemma FlagAfter(layout: Layout, k: Keys, i: Input, m: Modifier)
    ensures Flag(Step(layout, k, i), m) ==
      if i.Key? && Presses(m, i.sc) then true else if i.Key? && Releases(m, i.sc) then false else Flag(k, m)
  {
  }

  /** From any state with the modifier down, its flag stays set if and only if no release reaches
      the terminal after the last press that does. */
  lemma {:induction false} DownUntilReleased(layout: Layout, k: Keys, h: seq<Input>, m: Modifier)
    requires Flag(k, m)
    ensures Flag(Run(layout, k, h), m) <==> !ReleasedLast(m, h)
    decreases |h|
  {
    if h != [] {
      var before, i := h[..|h| - 1], h[|h| - 1];
      DownUntilReleased(layout, k, before, m);
      FlagAfter(layout, Run(layout, k, before), i, m);
      assert before + [i] == h;
      ReleasedLonger(m, before, i);
    }
  }

  /** The same for a terminal among the three: whatever is typed, switched and read. */
  lemma FlagStaysDown(layout: Layout, s: Keyboards, es: seq<Event>, t: Term, m: Modifier)
    requires Three(s) && Flag(s.keys[t], m)
    ensures Flag(DeliverAll(layout, s, es).keys[t], m) <==> !ReleasedLast(m, Received(layout, s, es, t))
  {
    KeyboardsAreIndependent(layout, s, es, t);
    DownUntilReleased(layout, s.keys[t], Received(layout, s, es, t), m);
  }

  lemma {:induction false} DeliverLonger(layout: Layout, s: Keyboards, es: seq<Event>, e: Event)
    requires Three(s)
    ensures DeliverAll(layout, s, es + [e]) == Deliver(layout, DeliverAll(layout, s, es), e)
    decreases |es|
  {
    if es == [] {
      assert [] + [e] == [e] && [e][1..] == [];
    } else {
      assert (es + [e])[1..] == es[1..] + [e];
      DeliverLonger(layout, Deliver(layout, s, es[0]), es[1..], e);
    }
  }

  /** Event `i` is the last of the modifier key, it came while another terminal was displayed,
      and the flag of terminal `t` was not yet what that event made of the key. */
  ghost predicate MissedAt(layout: Layout, s: Keyboards, es: seq<Event>, t: Term, m: Modifier, i: nat)
    requires Three(s)
  {
    && i < |es| && Moves(m, es[i]) && (forall j :: i < j < |es| ==> !Moves(m, es[j]))
    && DeliverAll(layout, s, es[..i]).currTerm != t
    && Flag(DeliverAll(layout, s, es[..i]).keys[t], m) != Presses(m, es[i].sc)
  }

  ghost predicate Missed(layout: Layout, s: Keyboards, es: seq<Event>, t: Term, m: Modifier)
    requires Three(s)
  {
    exists i: nat :: MissedAt(layout, s, es, t, m, i)
  }

  lemma MissedLonger(layout: Layout, s: Keyboards, es: seq<Event>, e: Event, t: Term, m: Modifier)
    requires Three(s)
    ensures var b := DeliverAll(layout, s, es);
      Missed(layout, s, es + [e], t, m) <==>
        if Moves(m, e) then b.currTerm != t && Flag(b.keys[t], m) != Presses(m, e.sc) else Missed(layout, s, es, t, m)
  {
    var longer := es + [e];
    assert longer[|es|] == e && longer[..|es|] == es;
    forall i: nat | i < |es|
      ensures MissedAt(layout, s, longer, t, m, i) <==> !Moves(m, e) && MissedAt(layout, s, es, t, m, i)
    {
      assert longer[i] == es[i] && longer[..i] == es[..i];
      assert forall j :: i < j < |es| ==> longer[j] == es[j];
    }
    var b := DeliverAll(layout, s, es);
    var missed := Moves(m, e) && b.currTerm != t && Flag(b.keys[t], m) != Presses(m, e.sc);
    assert MissedAt(layout, s, longer, t, m, |es|) <==> missed;
  }

  /** Where a terminal's flag and the key agree at first, they disagree after any events if and
      only if the terminal missed the last event of that key. */
  lemma {:induction false} FlagDisagrees(layout: Layout, s: Keyboards, es: seq<Event>, t: Term, m: Modifier)
    requires Three(s)
    ensures Flag(DeliverAll(layout, s, es).keys[t], m) != KeyDown(m, Flag(s.keys[t], m), es) <==>
      Missed(layout, s, es, t, m)
    decreases |es|
  {
    if es != [] {
      var before, e := es[..|es| - 1], es[|es| - 1];
      assert before + [e] == es;
      var b := DeliverAll(layout, s, before);
      DeliverLonger(layout, s, before, e);
      if e.KeyPress? && b.currTerm == t {
        FlagAfter(layout, b.keys[t], Key(e.sc), m);
      }
      MissedLonger(layout, s, before, e, t, m);
      FlagDisagrees(layout, s, before, t, m);
    }
  }

  /** No event of the modifier key comes while terminal `t` is displayed. */
  ghost predicate KeptFrom(layout: Layout, s: Keyboards, es: seq<Event>, t: Term, m: Modifier)
    requires Three(s)
  {
    forall i :: 0 <= i < |es| && Moves(m, es[i]) ==> DeliverAll(layout, s, es[..i]).currTerm != t
  }

  lemma {:induction false} FlagIsFrozen(layout: Layout, s: Keyboards, es: seq<Event>, t: Term, m: Modifier)
    requires Three(s) && KeptFrom(layout, s, es, t, m)
    ensures Flag(DeliverAll(layout, s, es).keys[t], m) == Flag(s.keys[t], m)
    decreases |es|
  {
    if es != [] {
      var before, e := es[..|es| - 1], es[|es| - 1];
      assert before + [e] == es;
      forall i | 0 <= i < |before| && Moves(m, before[i])
        ensures DeliverAll(layout, s, before[..i]).currTerm != t
      {
        assert es[i] == before[i] && es[..i] == before[..i];
      }
      FlagIsFrozen(layout, s, before, t, m);
      DeliverLonger(layout, s, before, e);
      var b := DeliverAll(layout, s, before);
      if e.KeyPress? && b.currTerm == t {
        FlagAfter(layout, b.keys[t], Key(e.sc), m);
      }
    }
  }

  /** A terminal left by a switch with a modifier down: as long as no event of that key comes while
      it is displayed, its flag stays set, so it is wrong exactly once the key is up. */
  lemma LeftDown(layout: Layout, s: Keyboards, es: seq<Event>, t: Term, m: Modifier)
    requires Three(s) && Flag(s.keys[t], m) && KeptFrom(layout, s, es, t, m)
    ensures Flag(DeliverAll(layout, s, es).keys[t], m)
    ensures Missed(layout, s, es, t, m) <==> !KeyDown(m, true, es)
  {
    FlagIsFrozen(layout, s, es, t, m);
    FlagDisagrees(layout, s, es, t, m);
  }

  // ------------------------------------------------------------- which terminal is displayed

  /** F1, F2 or F3, pressed while the displayed terminal has Alt down. */
  ghost predicate FunctionKey(s: Keyboards, e: Event)
    requires Three(s)
  {
    e.KeyPress? && 0x3B <= e.sc <= 0x3D && s.keys[s.currTerm].alt
  }

  /** Alt with F1, F2 or F3 displays terminal 0, 1 or 2, whichever was displayed, and no other event
      changes the displayed terminal. */
  lemma FunctionKeys(layout: Layout, s: Keyboards, e: Event)
    requires Three(s)
    ensures Deliver(layout, s, e).currTerm == if FunctionKey(s, e) then e.sc - 0x3B else s.currTerm
  {
  }

  /** Event `i` of the run is such a key press. */
  ghost predicate SwitchesAt(layout: Layout, s: Keyboards, es: seq<Event>, i: nat)
    requires Three(s)
  {
    i < |es| && FunctionKey(DeliverAll(layout, s, es[..i]), es[i])
  }

  ghost predicate LastSwitchAt(layout: Layout, s: Keyboards, es: seq<Event>, i: nat)
    requires Three(s)
  {
    SwitchesAt(layout, s, es, i) && forall j: nat :: SwitchesAt(layout, s, es, j) ==> j <= i
  }

  /** The displayed terminal is that of the last function key pressed with Alt down there, whatever
      else was typed, read and switched; without one it stays. */
  lemma {:induction false} DisplayedIsLastSwitch(layout: Layout, s: Keyboards, es: seq<Event>)
    requires Three(s)
    ensures forall i: nat :: LastSwitchAt(layout, s, es, i) ==> DeliverAll(layout, s, es).currTerm == es[i].sc - 0x3B
    ensures (forall i: nat :: !SwitchesAt(layout, s, es, i)) ==> DeliverAll(layout, s, es).currTerm == s.currTerm
    decreases |es|
  {
    if es != [] {
      var before, e := es[..|es| - 1], es[|es| - 1];
      assert before + [e] == es;
      DisplayedIsLastSwitch(layout, s, before);
      DeliverLonger(layout, s, before, e);
      FunctionKeys(layout, DeliverAll(layout, s, before), e);
      assert SwitchesAt(layout, s, es, |before|) <==> FunctionKey(DeliverAll(layout, s, before), e);
      forall i: nat | i < |before|
        ensures SwitchesAt(layout, s, es, i) <==> SwitchesAt(layout, s, before, i)
      {
        assert es[..i] == before[..i];
      }
      forall i: nat | i < |before| && LastSwitchAt(layout, s, es, i)
        ensures LastSwitchAt(layout, s, before, i)
      {
        forall j: nat | SwitchesAt(layout, s, before, j)
          ensures j <= i
        {
          assert SwitchesAt(layout, s, es, j);
        }
      }
    }
  }

  /** The usual case: Alt and F2 pressed, Alt released on the second terminal. */
  lemma AltStaysDown(layout: Layout)
    ensures var es := [KeyPress(PRESS_ALT), KeyPress(F2), KeyPress(RELEASE_ALT)];
      var s := DeliverAll(layout, Keyboards([INITIAL, INITIAL, INITIAL], 0), es);
      s.currTerm == 1 && s.keys[0].alt && !s.keys[1].alt
  {
    DeliverThree(layout, Keyboards([INITIAL, INITIAL, INITIAL], 0),
                 KeyPress(PRESS_ALT), KeyPress(F2), KeyPress(RELEASE_ALT));
  }

  lemma DeliverThree(layout: Layout, s: Keyboards, a: Event, b: Event, c: Event)
    requires Three(s)
    ensures DeliverAll(layout, s, [a, b, c]) == Deliver(layout, Deliver(layout, Deliver(layout, s, a), b), c)
  {
    var s1 := Deliver(layout, s, a);
    var s2 := Deliver(layout, s1, b);
    assert [a, b, c][1..] == [b, c] && [b, c][1..] == [c] && [c][1..] == [];
    assert DeliverAll(layout, s2, [c]) == DeliverAll(layout, Deliver(layout, s2, c), []);
    assert DeliverAll(layout, s1, [b, c]) == DeliverAll(layout, s2, [c]);
  }

  // ---------------------------------------------------------------------- the driver

  /** The keyboard part of one termdata_t. */
  class LineBuffer {
    const keybuf: array<Byte>
    var buflen: nat
    /** enter_pressed: 1 while a reader has to wait */
    var enterPressed: bool
    var shift: bool
    var capsLock: bool
    var capsLockCount: nat
    var ctrl: bool
    var alt: bool
    var eZero: bool

    ghost predicate Ok()
      reads this
    {
      keybuf.Length == KEYBUFSIZE && buflen <= KEYBUFSIZE
    }

    ghost function State(): Keys
      requires Ok()
      reads this, keybuf
    {
      Keys(shift, ctrl, alt, capsLock, capsLockCount, eZero, enterPressed, keybuf[..buflen])
    }

    /** The per-terminal part of term_init. */
    constructor ()
      ensures Ok() && fresh(keybuf) && State() == INITIAL
    {
      keybuf := new Byte[KEYBUFSIZE];
      buflen, enterPressed := 0, true;
      shift, capsLock, capsLockCount, ctrl, alt, eZero := false, false, 0, false, false, false;
    }

    /** The flag updates at the start of the handler. */
    method UpdateFlags(sc: Byte)
      requires Ok()
      modifies this
      ensures Ok() && State() == Flags(old(State()), sc)
    {
      if sc == EZERO {
        eZero := true;
      }
      if sc == PRESS_L_SHIFT || sc == PRESS_R_SHIFT {
        shift := true;
      }
      if sc == RELEASE_L_SHIFT || sc == RELEASE_R_SHIFT {
        shift := false;
      }
      if sc == PRESS_CTRL {
        ctrl := true;
      }
      if sc == RELEASE_CTRL {
        ctrl := false;
      }
      if sc == PRESS_ALT {
        alt := true;
      }
      if sc == RELEASE_ALT {
        alt := false;
      }
      if sc == PRESS_CAPS_LOCK {
        capsLock := capsLockCount % 2 == 0;
        capsLockCount := capsLockCount + 1;
      }
    }

    /** Adds a typed character to the buffer. */
    method PushChar(c: Byte)
      requires Ok()
      modifies `buflen, keybuf
      ensures Ok() && State() == old(State()).(line := Push(old(State()).line, c))
    {
      ghost var line := keybuf[..buflen];
      if buflen < KEYBUFSIZE {
        keybuf[buflen] := c;
        buflen := buflen + 1;
        assert keybuf[..buflen] == line + [c];
      } else {
        keybuf[KEYBUFSIZE - 1] := ESCAPE;
        assert keybuf[..buflen] == line[KEYBUFSIZE - 1 := ESCAPE];
      }
    }

    /** The backspace key drops the last character, if there is one. */
    method PopChar() returns (effect: Effect)
      requires Ok()
      modifies `buflen
      ensures Ok() && State() == old(State()).(line := Edited(CharOf, old(State()), BACK))
      ensures effect == Request(CharOf, old(State()), BACK)
    {
      effect := Nothing;
      if buflen >= 1 {
        effect := EchoChar(BACKSPACE);
        ghost var line := keybuf[..buflen];
        buflen := buflen - 1;
        assert keybuf[..buflen] == line[..|line| - 1];
      }
    }

    /** A key that is neither a command nor backspace: its character, if any, is echoed and stored. */
    method TypeKey(sc: Byte) returns (effect: Effect)
      requires Ok()
      modifies `buflen, `enterPressed, keybuf
      ensures Ok()
      ensures var k := old(State());
        var c := CharOf(sc, k.shift, k.shift != k.capsLock);
        && effect == (if c == 0 then Nothing else EchoChar(c))
        && State() == k.(line := if c == 0 then k.line else Push(k.line, c), waiting := k.waiting && sc != ENTER)
    {
      var capital := (shift && !capsLock) || (!shift && capsLock);
      var outchar := CharOf(sc, shift, capital);
      effect := Nothing;
      if sc == ENTER {
        enterPressed := false;
      }
      if outchar != 0 {
        effect := EchoChar(outchar);
        PushChar(outchar);
      }
    }

    /** The translation of a key, and the buffer edit that follows it. */
    method Translate(sc: Byte) returns (effect: Effect)
      requires Ok()
      modifies `buflen, `enterPressed, keybuf
      ensures Ok() && effect == Request(CharOf, old(State()), sc)
      ensures State() ==
        old(State()).(line := Edited(CharOf, old(State()), sc), waiting := old(State()).waiting && sc != ENTER)
    {
      effect := Nothing;
      if sc == L && ctrl {
        effect := ClearScreen;
      } else if sc == F1 && alt {
        effect := SwitchTerm(0);
      } else if sc == F2 && alt {
        effect := SwitchTerm(1);
      } else if sc == F3 && alt {
        effect := SwitchTerm(2);
      } else if sc == BACK {
        effect := PopChar();
      } else {
        effect := TypeKey(sc);
      }
    }

    /** keyboard_handler, up to the screen effect it returns. */
    method KeyboardHandler(sc: Byte) returns (effect: Effect)
      requires Ok()
      modifies this, keybuf
      ensures Ok() && (State(), effect) == Handle(CharOf, old(State()), sc)
    {
      UpdateFlags(sc);
      effect := Translate(sc);
      if sc != EZERO {
        eZero := false;
      }
    }

    /** The number of bytes a read copies, as the handler's unsigned comparison computes it. */
    method CopyCount(nbytes: int) returns (toCopy: nat)
      requires Ok()
      ensures toCopy == ReadCount(State().line, nbytes)
    {
      var capped := KEYBUFSIZE;
      if nbytes < capped {
        capped := nbytes;
      }
      // buflen is unsigned, so a negative count compares as a large one
      toCopy := if capped < 0 || buflen < capped then buflen else capped;
    }

    /** memset(keybuf, 0, KEYBUFSIZE) */
    method ZeroBuffer()
      requires Ok()
      modifies keybuf
    {
      var j := 0;
      while j < KEYBUFSIZE {
        keybuf[j] := 0;
        j := j + 1;
      }
    }

    /** term_read, once Enter has ended the wait: the first bytes of the line, then an empty buffer. */
    method TermRead(buf: array<Byte>, nbytes: int) returns (r: nat)
      requires Ok() && !enterPressed && buf != keybuf
      requires ReadCount(State().line, nbytes) <= buf.Length
      modifies this, keybuf, buf
      ensures Ok() && State() == Step(CharOf, old(State()), ReadLine(nbytes))
      ensures r == ReadCount(old(State()).line, nbytes) && r <= |old(State()).line|
      ensures buf[..r] == old(State()).line[..r]
      ensures forall k :: r <= k < buf.Length ==> buf[k] == old(buf[k])
    {
      r := CopyCount(nbytes);
      var i := 0;
      while i < r
        modifies buf
        invariant 0 <= i <= r && buf[..i] == keybuf[..i]
        invariant forall k :: i <= k < buf.Length ==> buf[k] == old(buf[k])
      {
        buf[i] := keybuf[i];
        i := i + 1;
      }
      enterPressed := true;
      ZeroBuffer();
      buflen := 0;
    }
  }
}
