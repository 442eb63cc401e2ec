/** Three virtual terminals over one displayed page and three backing pages
    (student-distrib/terminal.c): the state, its operations, and their isolation. */
module Terminals {
  import opened Bytes
  import opened Screen
  import opened TextLog

  const MAX_TERM := 3
  const VIDEO := 0xB8000
  const FOURKB := 0x1000

  /** The display part of termdata_t. */
  datatype TermData = TermData(screenX: int, screenY: int, videoMem: int, runon: bool)

  /** pages[0] is the displayed page at VIDEO, pages[t + 1] the backing page of terminal t. */
  datatype Display = Display(pages: seq<Page>, terms: seq<TermData>, currTerm: int)

  type Term = t: int | 0 <= t < MAX_TERM

  /** The page terminal `t` owns: VIDEO when it is displayed, else its backing page. */
  function HomePage(t: Term, currTerm: int): int {
    if t == currTerm then VIDEO else VIDEO + FOURKB * (t + 1)
  }

  predicate Valid(d: Display) {
    && |d.pages| == MAX_TERM + 1 && |d.terms| == MAX_TERM && 0 <= d.currTerm < MAX_TERM
    && forall t: Term :: d.terms[t].videoMem == HomePage(t, d.currTerm)
  }

  /** The index of the page a video_mem pointer names. */
  function PageIndex(videoMem: int): int {
    (videoMem - VIDEO) / FOURKB
  }

  /** A terminal's logical screen: its cursor and the page its video_mem names. */
  function View(d: Display, t: Term): Console
    requires Valid(d)
  {
    var term := d.terms[t];
    Console(d.pages[PageIndex(term.videoMem)], term.screenX, term.screenY, term.runon)
  }

  function WithView(d: Display, t: Term, s: Console): Display
    requires Valid(d)
  {
    var term := d.terms[t];
    d.(pages := d.pages[PageIndex(term.videoMem) := s.page],
       terms := d.terms[t := term.(screenX := s.x, screenY := s.y, runon := s.runon)])
  }

  /** term_switch: two page copies and two retargeted pointers. */
  function Switch(d: Display, n: Term): Display
    requires Valid(d)
  {
    if n == d.currTerm then d
    else
      var c: Term := d.currTerm;
      d.(pages := d.pages[c + 1 := d.pages[0]][0 := d.pages[n + 1]],
         terms := d.terms[c := d.terms[c].(videoMem := VIDEO + FOURKB * (c + 1))]
                         [n := d.terms[n].(videoMem := VIDEO)],
         currTerm := n)
  }

  // ------------------------------------------------------------- steps and runs

  /** What one terminal sees of a step. */
  datatype ConsoleOp = PutOp(c: Byte) | EchoOp(c: Byte) | ClearOp

  /** A process writes or clears on its terminal, the keyboard echoes on the displayed one,
      or the user switches. */
  datatype Op = PutAt(t: Term, c: Byte) | KeyEcho(c: Byte) | ClearAt(t: Term) | SwitchTo(n: Term)

  function Apply(s: Console, op: ConsoleOp): Console
    requires InRange(s)
  {
    match op
    case PutOp(c) => Putc(s, c)
    case EchoOp(c) => Echo(s, c)
    case ClearOp => Clear(s)
  }

  predicate SafeOp(s: Console, op: ConsoleOp) {
    match op
    case PutOp(c) => PutcSafe(s, c)
    case EchoOp(c) => EchoSafe(s, c)
    case ClearOp => true
  }

  /** The terminal a step works on, or switches to. */
  function Target(currTerm: Term, op: Op): Term {
    match op
    case PutAt(t, _) => t
    case KeyEcho(_) => currTerm
    case ClearAt(t) => t
    case SwitchTo(n) => n
  }

  function Action(op: Op): ConsoleOp
    requires !op.SwitchTo?
  {
    match op
    case PutAt(_, c) => PutOp(c)
    case KeyEcho(c) => EchoOp(c)
    case ClearAt(_) => ClearOp
  }

  /** Every terminal's cursor is in range. */
  predicate OnScreen(d: Display) {
    Valid(d) && forall t: Term :: InRange(View(d, t))
  }

  function Step(d: Display, op: Op): Display
    requires OnScreen(d)
  {
    if op.SwitchTo? then Switch(d, op.n)
    else
      var t := Target(d.currTerm, op);
      WithView(d, t, Apply(View(d, t), Action(op)))
  }

  /** Switching copies pages and retargets pointers; no logical screen changes. */
  lemma SwitchKeepsViews(d: Display, n: Term)
    requires Valid(d)
    ensures Valid(Switch(d, n)) && Switch(d, n).currTerm == n
    ensures forall t: Term :: View(Switch(d, n), t) == View(d, t)
  {
  }

  /** Work on one terminal changes that terminal's logical screen and no other. */
  lemma WithViewIsLocal(d: Display, t: Term, s: Console)
    requires Valid(d)
    ensures Valid(WithView(d, t, s)) && WithView(d, t, s).currTerm == d.currTerm
    ensures forall u: Term :: View(WithView(d, t, s), u) == if u == t then s else View(d, u)
  {
  }

  /** Of two pieces of work on one terminal the last one counts. */
  lemma WithViewAgain(d: Display, t: Term, a: Console, b: Console)
    requires Valid(d)
    ensures Valid(WithView(d, t, a)) && WithView(WithView(d, t, a), t, b) == WithView(d, t, b)
  {
  }

  /** What terminal `t` itself is asked to do in a run that starts with `currTerm` displayed. */
  function Own(currTerm: Term, ops: seq<Op>, t: Term): seq<ConsoleOp>
    decreases |ops|
  {
    if ops == [] then []
    else
      var next := if ops[0].SwitchTo? then ops[0].n else currTerm;
      (if !ops[0].SwitchTo? && Target(currTerm, ops[0]) == t then [Action(ops[0])] else [])
      + Own(next, ops[1..], t)
  }

  /** A terminal run on its own stays on its screen. */
  ghost predicate SafeAlone(s: Console, ops: seq<ConsoleOp>)
    decreases |ops|
  {
    InRange(s) && (ops == [] || (SafeOp(s, ops[0]) && SafeAlone(Apply(s, ops[0]), ops[1..])))
  }

  function RunAlone(s: Console, ops: seq<ConsoleOp>): Console
    requires SafeAlone(s, ops)
    decreases |ops|
  {
    if ops == [] then s else RunAlone(Apply(s, ops[0]), ops[1..])
  }

  ghost predicate SafeRun(d: Display, ops: seq<Op>) {
    Valid(d) && forall t: Term :: SafeAlone(View(d, t), Own(d.currTerm, ops, t))
  }

  lemma SafeStep(d: Display, ops: seq<Op>)
    requires SafeRun(d, ops) && ops != []
    ensures SafeRun(Step(d, ops[0]), ops[1..])
    ensures forall t: Term ::
      var e := Step(d, ops[0]);
      RunAlone(View(d, t), Own(d.currTerm, ops, t)) == RunAlone(View(e, t), Own(e.currTerm, ops[1..], t))
  {
    var op, rest := ops[0], ops[1..];
    if op.SwitchTo? {
      SwitchKeepsViews(d, op.n);
      assert forall t: Term :: Own(d.currTerm, ops, t) == Own(op.n, rest, t);
    } else {
      var u := Target(d.currTerm, op);
      WithViewIsLocal(d, u, Apply(View(d, u), Action(op)));
      forall t: Term
        ensures Own(d.currTerm, ops, t) == (if t == u then [Action(op)] else []) + Own(d.currTerm, rest, t)
      {
      }
      assert ([Action(op)] + Own(d.currTerm, rest, u))[1..] == Own(d.currTerm, rest, u);
      forall t: Term | t != u
        ensures Own(d.currTerm, ops, t) == Own(d.currTerm, rest, t)
      {
      }
    }
  }

  function Run(d: Display, ops: seq<Op>): (e: Display)
    requires SafeRun(d, ops)
    ensures Valid(e)
    decreases |ops|
  {
    if ops == [] then d
    else
      SafeStep(d, ops);
      Run(Step(d, ops[0]), ops[1..])
  }

  /** Isolation: in every interleaving of switches, process output and keyboard echo, each
      terminal's logical screen is the result of its own operations run alone, and exactly
      the displayed terminal owns the page at VIDEO. */
  lemma {:induction false} Isolation(d: Display, ops: seq<Op>)
    requires SafeRun(d, ops)
    ensures forall t: Term :: View(Run(d, ops), t) == RunAlone(View(d, t), Own(d.currTerm, ops, t))
    decreases |ops|
  {
    if ops != [] {
      SafeStep(d, ops);
      Isolation(Step(d, ops[0]), ops[1..]);
    }
  }

  // ------------------------------------------------------------------ plain text

  /** One character of plain text, printed or typed, or a clear. */
  predicate PlainOp(op: ConsoleOp) {
    op.ClearOp? || (op.c != NUL && op.c != BACKSPACE)
  }

  predicate PlainOps(ops: seq<ConsoleOp>) {
    forall k :: 0 <= k < |ops| ==> PlainOp(ops[k])
  }

  /** The log after plain text has been added to it; a clear starts it afresh. */
  function Logged(log: Log, ops: seq<ConsoleOp>): Log
    requires PlainOps(ops)
    decreases |ops|
  {
    if ops == [] then log
    else Logged(if ops[0].ClearOp? then Log([], []) else AddByte(log, ops[0].c), ops[1..])
  }

  lemma PlainOpShows(s: Console, log: Log, op: ConsoleOp)
    requires Shows(s, log) && PlainOp(op) && SafeOp(s, op)
    ensures InRange(s)
    ensures Shows(Apply(s, op), if op.ClearOp? then Log([], []) else AddByte(log, op.c))
  {
    if op.ClearOp? {
      ClearShows(s);
    } else {
      PutcShows(s, log, op.c);
      EchoIsPutc(s, op.c);
    }
  }

  lemma {:induction false} PlainAlone(s: Console, log: Log, ops: seq<ConsoleOp>)
    requires Shows(s, log) && PlainOps(ops) && SafeAlone(s, ops)
    ensures Shows(RunAlone(s, ops), Logged(log, ops))
    decreases |ops|
  {
    if ops != [] {
      assert PlainOp(ops[0]) && PlainOps(ops[1..]);
      PlainOpShows(s, log, ops[0]);
      PlainAlone(Apply(s, ops[0]), if ops[0].ClearOp? then Log([], []) else AddByte(log, ops[0].c), ops[1..]);
    }
  }

  // ------------------------------------------------------------- the wrap mark, and what is off screen

  predicate Escapes(op: ConsoleOp) {
    !op.ClearOp? && op.c == ESCAPE
  }

  /** The character takes the cursor to the last column of a row above the last. */
  predicate Wraps(s: Console, op: ConsoleOp) {
    && !op.ClearOp? && s.y < ROWS - 1 && op.c != BACKSPACE && !EndsRow(op.c)
    && (if op.c != TAB then s.x + 1 == COLS - 1
        else if op.PutOp? then s.x + TAB_WIDTH >= COLS - 1 else s.x + TAB_WIDTH == COLS - 1)
  }

  lemma RunonStep(s: Console, op: ConsoleOp)
    requires InRange(s) && SafeOp(s, op)
    ensures Apply(s, op).runon == (Wraps(s, op) || (s.runon && !Escapes(op)))
  {
  }

  ghost predicate NoEscape(ops: seq<ConsoleOp>) {
    forall k :: 0 <= k < |ops| ==> !Escapes(ops[k])
  }

  /** Some character wraps, and no escape comes after it. */
  ghost predicate WrapsLast(s: Console, ops: seq<ConsoleOp>)
    requires SafeAlone(s, ops)
    decreases |ops|
  {
    ops != [] && ((Wraps(s, ops[0]) && NoEscape(ops[1..])) || WrapsLast(Apply(s, ops[0]), ops[1..]))
  }

  /** After a run `runon` says whether some character wrapped with no escape after it, or it was set
      before and no escape came: newlines, backspaces, clears and scrolls leave it as it is. */
  lemma {:induction false} RunonAfter(s: Console, ops: seq<ConsoleOp>)
    requires SafeAlone(s, ops)
    ensures RunAlone(s, ops).runon <==> WrapsLast(s, ops) || (s.runon && NoEscape(ops))
    decreases |ops|
  {
    if ops != [] {
      RunonStep(s, ops[0]);
      RunonAfter(Apply(s, ops[0]), ops[1..]);
      assert NoEscape(ops) <==> !Escapes(ops[0]) && NoEscape(ops[1..]) by {
        assert forall k :: 0 <= k < |ops[1..]| ==> ops[1..][k] == ops[k + 1];
      }
    }
  }

  /** And so on each of the three terminals. */
  lemma RunonOfTerminal(d: Display, ops: seq<Op>, t: Term)
    requires SafeRun(d, ops)
    ensures var s, own := View(d, t), Own(d.currTerm, ops, t);
      View(Run(d, ops), t).runon <==> WrapsLast(s, own) || (s.runon && NoEscape(own))
  {
    Isolation(d, ops);
    RunonAfter(View(d, t), Own(d.currTerm, ops, t));
  }

  /** The bytes of a page that are not on the screen are not touched, except by a tab near the end of
      the last row. */
  lemma OffScreenStays(s: Console, op: ConsoleOp, i: nat)
    requires InRange(s) && SafeOp(s, op) && SCREEN_BYTES <= i < PAGE_SIZE
    requires !op.ClearOp? && op.c == TAB ==> s.y < ROWS - 1 || s.x + TAB_WIDTH < COLS
    ensures Apply(s, op).page[i] == s.page[i]
  {
    if !op.ClearOp? {
      PlaceOffScreen(s, op.c, i);
    }
  }

  lemma PlaceOffScreen(s: Console, c: Byte, i: nat)
    requires InRange(s) && PutcSafe(s, c) && SCREEN_BYTES <= i < PAGE_SIZE
    requires c == TAB ==> s.y < ROWS - 1 || s.x + TAB_WIDTH < COLS
    ensures Place(s, c).page[i] == s.page[i]
  {
  }

  /** Three consoles in one: under any safe interleaving of plain text, clears and switches each terminal
      displays its own log, and the page at VIDEO shows the log of the displayed terminal. */
  lemma TerminalsShowTheirLogs(d: Display, logs: seq<Log>, ops: seq<Op>)
    requires SafeRun(d, ops) && |logs| == MAX_TERM
    requires forall t: Term :: Shows(View(d, t), logs[t])
    requires forall t: Term :: PlainOps(Own(d.currTerm, ops, t))
    ensures forall t: Term :: Shows(View(Run(d, ops), t), Logged(logs[t], Own(d.currTerm, ops, t)))
    ensures Displays(Run(d, ops).pages[0],
      Logged(logs[Run(d, ops).currTerm], Own(d.currTerm, ops, Run(d, ops).currTerm)))
  {
    forall t: Term
      ensures Shows(RunAlone(View(d, t), Own(d.currTerm, ops, t)), Logged(logs[t], Own(d.currTerm, ops, t)))
    {
      PlainAlone(View(d, t), logs[t], Own(d.currTerm, ops, t));
    }
    Isolation(d, ops);
  }

  predicate NoTypedTabs(ops: seq<ConsoleOp>) {
    forall k :: 0 <= k < |ops| ==> !(ops[k].EchoOp? && ops[k].c == TAB)
  }

  lemma {:induction false} PlainAloneIsSafe(s: Console, log: Log, ops: seq<ConsoleOp>)
    requires Shows(s, log) && PlainOps(ops) && NoTypedTabs(ops)
    ensures SafeAlone(s, ops)
    decreases |ops|
  {
    if ops != [] {
      assert PlainOp(ops[0]) && PlainOps(ops[1..]);
      PlainOpShows(s, log, ops[0]);
      PlainAloneIsSafe(Apply(s, ops[0]), if ops[0].ClearOp? then Log([], []) else AddByte(log, ops[0].c), ops[1..]);
    }
  }

  /** And without typed tabs every such interleaving is safe. */
  lemma PlainRunsAreSafe(d: Display, logs: seq<Log>, ops: seq<Op>)
    requires Valid(d) && |logs| == MAX_TERM
    requires forall t: Term :: Shows(View(d, t), logs[t])
    requires forall t: Term :: PlainOps(Own(d.currTerm, ops, t)) && NoTypedTabs(Own(d.currTerm, ops, t))
    ensures SafeRun(d, ops)
  {
    forall t: Term
      ensures SafeAlone(View(d, t), Own(d.currTerm, ops, t))
    {
      PlainAloneIsSafe(View(d, t), logs[t], Own(d.currTerm, ops, t));
    }
  }
}

/** The console driver: the video memory, the terminal table, and the methods that change them. */
module DisplayDriver {
  import opened Bytes
  import opened Screen
  import opened Terminals
  import opened TextLog

  const VRAM_SIZE := (MAX_TERM + 1) * PAGE_SIZE

  function Slice(memory: seq<Byte>, k: nat): Page
    requires |memory| == VRAM_SIZE && k <= MAX_TERM
  {
    memory[PAGE_SIZE * k..PAGE_SIZE * (k + 1)]
  }

  /** The four pages that make up the video memory. */
  function PagesOf(memory: seq<Byte>): (pages: seq<Page>)
    requires |memory| == VRAM_SIZE
    ensures |pages| == MAX_TERM + 1
  {
    [Slice(memory, 0), Slice(memory, 1), Slice(memory, 2), Slice(memory, 3)]
  }

  /** A byte stored in page `k` changes that page at that offset and nothing else. */
  lemma StoreIsLocal(memory: seq<Byte>, k: nat, j: nat, b: Byte)
    requires |memory| == VRAM_SIZE && k <= MAX_TERM && j < PAGE_SIZE
    ensures PagesOf(memory[PAGE_SIZE * k + j := b]) == PagesOf(memory)[k := PagesOf(memory)[k][j := b]]
  {
    var after := memory[PAGE_SIZE * k + j := b];
    forall i: nat | i <= MAX_TERM
      ensures Slice(after, i) == if i == k then Slice(memory, k)[j := b] else Slice(memory, i)
    {
    }
  }

  /** The page after `n` cells of the scroll loop have been moved up one row. */
  function PartlyScrolled(page: Page, n: nat): Page
    requires n <= COLS * (ROWS - 1)
  {
    seq(PAGE_SIZE, i requires 0 <= i < PAGE_SIZE =>
      if i % 2 == 0 && i < 2 * n then page[i + 2 * COLS]
      else if i % 2 == 1 && 2 * COLS <= i < 2 * (COLS + n) then ATTRIB
      else page[i])
  }

  lemma ScrollLoopStep(page: Page, n: nat)
    requires n < COLS * (ROWS - 1)
    ensures PartlyScrolled(page, n + 1) ==
      PartlyScrolled(page, n)[2 * n := PartlyScrolled(page, n)[2 * (n + COLS)]][2 * (n + COLS) + 1 := ATTRIB]
    ensures PartlyScrolled(page, 0) == page
  {
  }

  /** The page after the first `x` cells of the bottom row have been blanked too. */
  function PartlyBlanked(page: Page, x: nat): Page
    requires x <= COLS
  {
    var moved := PartlyScrolled(page, COLS * (ROWS - 1));
    seq(PAGE_SIZE, i requires 0 <= i < PAGE_SIZE =>
      if 2 * COLS * (ROWS - 1) <= i < 2 * (COLS * (ROWS - 1) + x) then (if i % 2 == 0 then SPACE else ATTRIB)
      else moved[i])
  }

  lemma BlankLoopStep(page: Page, x: nat)
    requires x < COLS
    ensures PartlyBlanked(page, x + 1) == Poke(PartlyBlanked(page, x), COLS * (ROWS - 1) + x, SPACE)
    ensures PartlyBlanked(page, 0) == PartlyScrolled(page, COLS * (ROWS - 1))
    ensures PartlyBlanked(page, COLS) == ScrolledPage(page)
  {
  }

  /** The page after the clear loop has blanked `n` cells. */
  function PartlyCleared(page: Page, n: nat): Page
    requires n <= COLS * ROWS
  {
    seq(PAGE_SIZE, i requires 0 <= i < PAGE_SIZE =>
      if i < 2 * n then (if i % 2 == 0 then SPACE else ATTRIB) else page[i])
  }

  lemma ClearLoopStep(page: Page, n: nat)
    requires n < COLS * ROWS
    ensures PartlyCleared(page, n + 1) == Poke(PartlyCleared(page, n), n, SPACE)
    ensures PartlyCleared(page, 0) == page
    ensures PartlyCleared(page, COLS * ROWS) == ClearedPage(page)
  {
  }

  /** Page `to` after the first `n` bytes of page `from` have been copied over it. */
  function PartlyCopied(to: Page, from: Page, n: nat): Page
    requires n <= PAGE_SIZE
  {
    seq(PAGE_SIZE, i requires 0 <= i < PAGE_SIZE => if i < n then from[i] else to[i])
  }

  lemma CopyLoopStep(to: Page, from: Page, n: nat)
    requires n < PAGE_SIZE
    ensures PartlyCopied(to, from, n + 1) == PartlyCopied(to, from, n)[n := from[n]]
    ensures PartlyCopied(to, from, 0) == to
    ensures PartlyCopied(to, from, PAGE_SIZE) == from
  {
  }

  class Driver {
    /** The bytes at VIDEO .. VIDEO + 4 * FOURKB. */
    const vram: array<Byte>
    const terminals: array<TermData>
    var currTerm: int

    ghost predicate Allocated() {
      vram.Length == VRAM_SIZE && terminals.Length == MAX_TERM
    }

    ghost function State(): Display
      requires Allocated()
      reads this, vram, terminals
    {
      Display(PagesOf(vram[..]), terminals[..], currTerm)
    }

    ghost predicate Ok()
      reads this, vram, terminals
    {
      Allocated() && Terminals.Valid(State())
    }

    ghost function Console(t: Term): Console
      requires Ok()
      reads this, vram, terminals
    {
      View(State(), t)
    }

    /** term_init, run over arbitrary memory contents. */
    constructor ()
      ensures Ok() && currTerm == 0 && fresh(vram) && fresh(terminals)
      ensures forall t: Term :: var s := Console(t); s.x == 0 && s.y == 0 && !s.runon
    {
      vram := new Byte[VRAM_SIZE];
      terminals := new TermData[MAX_TERM](_ => TermData(0, 0, VIDEO, false));
      currTerm := 0;
      new;
      var i := 0;
      while i < MAX_TERM
        invariant 0 <= i <= MAX_TERM && currTerm == 0
        invariant forall t :: 0 <= t < i ==> terminals[t] == TermData(0, 0, VIDEO + (t + 1) * FOURKB, false)
      {
        terminals[i] := TermData(0, 0, VIDEO + (i + 1) * FOURKB, false);
        i := i + 1;
      }
      terminals[0] := terminals[0].(videoMem := VIDEO);
    }

    /** One byte written at a physical address of the video memory. */
    method Store(addr: int, b: Byte)
      requires Allocated() && VIDEO <= addr < VIDEO + VRAM_SIZE
      modifies vram
      ensures var k, j := (addr - VIDEO) / PAGE_SIZE, (addr - VIDEO) % PAGE_SIZE;
        PagesOf(vram[..]) == old(PagesOf(vram[..]))[k := old(PagesOf(vram[..]))[k][j := b]]
    {
      StoreIsLocal(vram[..], (addr - VIDEO) / PAGE_SIZE, (addr - VIDEO) % PAGE_SIZE, b);
      ghost var before := vram[..];
      vram[addr - VIDEO] := b;
      assert vram[..] == before[addr - VIDEO := b];
    }

    /** The byte at a physical address of the video memory. */
    method Load(addr: int) returns (b: Byte)
      requires Allocated() && VIDEO <= addr < VIDEO + VRAM_SIZE
      ensures b == PagesOf(vram[..])[(addr - VIDEO) / PAGE_SIZE][(addr - VIDEO) % PAGE_SIZE]
    {
      b := vram[addr - VIDEO];
    }

    /** Writes the character and the attribute of one cell of terminal `t`. */
    method PokeCell(t: Term, cell: int, c: Byte)
      requires Ok() && 0 <= cell < PAGE_SIZE / 2
      modifies vram
      ensures Ok() && State() == WithView(old(State()), t, old(Console(t)).(page := Poke(old(Console(t)).page, cell, c)))
    {
      var base := terminals[t].videoMem;
      Store(base + 2 * cell, c);
      Store(base + 2 * cell + 1, ATTRIB);
    }

    /** The inner step of scroll: one cell moves up by one row. */
    method MoveCell(base: int, x: nat, y: nat, ghost k: nat, ghost page: Page)
      requires Allocated() && k <= MAX_TERM && base == VIDEO + PAGE_SIZE * k && x < COLS && 1 <= y < ROWS
      requires PagesOf(vram[..])[k] == PartlyScrolled(page, COLS * (y - 1) + x)
      modifies vram
      ensures PagesOf(vram[..]) == old(PagesOf(vram[..]))[k := PartlyScrolled(page, COLS * (y - 1) + x + 1)]
    {
      ScrollLoopStep(page, COLS * (y - 1) + x);
      var store := Load(base + 2 * (COLS * y + x));
      Store(base + 2 * (COLS * (y - 1) + x), store);
      Store(base + 2 * (COLS * y + x) + 1, ATTRIB);
    }

    /** The inner loop of scroll: row `y` moves up by one. */
    method MoveRow(base: int, y: nat, ghost k: nat, ghost page: Page)
      requires Allocated() && k <= MAX_TERM && base == VIDEO + PAGE_SIZE * k && 1 <= y < ROWS
      requires PagesOf(vram[..])[k] == PartlyScrolled(page, COLS * (y - 1))
      modifies vram
      ensures PagesOf(vram[..]) == old(PagesOf(vram[..]))[k := PartlyScrolled(page, COLS * y)]
    {
      ghost var pages := PagesOf(vram[..]);
      var x := 0;
      while x < COLS
        invariant 0 <= x <= COLS
        invariant PagesOf(vram[..]) == pages[k := PartlyScrolled(page, COLS * (y - 1) + x)]
      {
        MoveCell(base, x, y, k, page);
        x := x + 1;
      }
    }

    /** The nested loops of scroll: every row moves up by one. */
    method MoveRowsUp(base: int, ghost k: nat)
      requires Allocated() && k <= MAX_TERM && base == VIDEO + PAGE_SIZE * k
      modifies vram
      ensures PagesOf(vram[..]) ==
        old(PagesOf(vram[..]))[k := PartlyScrolled(old(PagesOf(vram[..]))[k], COLS * (ROWS - 1))]
    {
      ghost var pages := PagesOf(vram[..]);
      ghost var page := pages[k];
      ScrollLoopStep(page, 0);
      var y := 1;
      while y < ROWS
        invariant 1 <= y <= ROWS
        invariant PagesOf(vram[..]) == pages[k := PartlyScrolled(page, COLS * (y - 1))]
      {
        MoveRow(base, y, k, page);
        y := y + 1;
      }
    }

    /** The last loop of scroll: the bottom row is blanked. */
    method BlankBottomRow(base: int, y: int, ghost k: nat, ghost page: Page)
      requires Allocated() && k <= MAX_TERM && base == VIDEO + PAGE_SIZE * k && y == ROWS - 1
      requires PagesOf(vram[..])[k] == PartlyScrolled(page, COLS * (ROWS - 1))
      modifies vram
      ensures PagesOf(vram[..]) == old(PagesOf(vram[..]))[k := ScrolledPage(page)]
    {
      ghost var pages := PagesOf(vram[..]);
      BlankLoopStep(page, 0);
      var x := 0;
      while x < COLS
        invariant 0 <= x <= COLS
        invariant PagesOf(vram[..]) == pages[k := PartlyBlanked(page, x)]
      {
        BlankLoopStep(page, x);
        Store(base + 2 * (COLS * y + x), SPACE);
        Store(base + 2 * (COLS * y + x) + 1, ATTRIB);
        x := x + 1;
      }
    }

    /** scroll and scroll_echo: the same code for the writer's and for the displayed terminal. */
    method Scroll(t: Term)
      requires Ok()
      modifies vram, terminals
      ensures Ok() && State() == WithView(old(State()), t, Screen.Scroll(old(Console(t))))
    {
      var base := terminals[t].videoMem;
      ghost var k := PageIndex(base);
      ghost var page := PagesOf(vram[..])[k];
      MoveRowsUp(base, k);
      terminals[t] := terminals[t].(screenY := ROWS - 1);
      BlankBottomRow(base, terminals[t].screenY, k, page);
      terminals[t] := terminals[t].(screenX := 0);
    }

    /** clear, on the terminal of the running process. */
    method Clear(t: Term)
      requires Ok()
      modifies vram, terminals
      ensures Ok() && State() == WithView(old(State()), t, Screen.Clear(old(Console(t))))
    {
      var base := terminals[t].videoMem;
      ghost var k := PageIndex(base);
      ghost var pages := PagesOf(vram[..]);
      ClearLoopStep(pages[k], 0);
      var i := 0;
      while i < ROWS * COLS
        invariant 0 <= i <= ROWS * COLS
        invariant terminals[..] == old(terminals[..])
        invariant PagesOf(vram[..]) == pages[k := PartlyCleared(pages[k], i)]
      {
        ClearLoopStep(pages[k], i);
        Store(base + 2 * i, SPACE);
        Store(base + 2 * i + 1, ATTRIB);
        i := i + 1;
      }
      terminals[t] := terminals[t].(screenX := 0);
      terminals[t] := terminals[t].(screenY := 0);
    }

    /** The newline and carriage return case. */
    method LineFeed(t: Term, c: Byte)
      requires Ok() && InRange(Console(t)) && (c == NEWLINE || c == RETURN)
      modifies vram, terminals
      ensures Ok() && State() == WithView(old(State()), t, Screen.Place(old(Console(t)), c))
    {
      if terminals[t].screenY >= ROWS - 1 {
        Scroll(t);
      } else {
        terminals[t] := terminals[t].(screenY := terminals[t].screenY + 1);
      }
      terminals[t] := terminals[t].(screenX := 0);
    }

    /** The backspace case. */
    method Backspace(t: Term)
      requires Ok() && InRange(Console(t)) && PutcSafe(Console(t), BACKSPACE)
      modifies vram, terminals
      ensures Ok() && State() == WithView(old(State()), t, Screen.Place(old(Console(t)), BACKSPACE))
    {
      StaysInPage(Console(t), BACKSPACE);
      if terminals[t].screenX >= 1 {
        terminals[t] := terminals[t].(screenX := terminals[t].screenX - 1);
      } else if terminals[t].runon {
        terminals[t] := terminals[t].(screenX := COLS - 2);
        terminals[t] := terminals[t].(screenY := terminals[t].screenY - 1);
      }
      PokeCell(t, COLS * terminals[t].screenY + terminals[t].screenX, SPACE);
    }

    /** The tab case: the loop writes the same cell TAB_WIDTH times. */
    method Tab(t: Term)
      requires Ok() && InRange(Console(t))
      modifies vram, terminals
      ensures Ok() && State() == WithView(old(State()), t, Screen.Place(old(Console(t)), TAB))
    {
      terminals[t] := terminals[t].(screenX := terminals[t].screenX + TAB_WIDTH);
      ghost var d := State();
      ghost var s := Console(t);
      PokeAgain(s.page, Cell(s), SPACE);
      var i := 0;
      while i < TAB_WIDTH
        invariant 0 <= i <= TAB_WIDTH && Ok() && terminals[..] == d.terms
        invariant State() == if i == 0 then d else WithView(d, t, s.(page := Poke(s.page, Cell(s), SPACE)))
      {
        PokeCell(t, COLS * terminals[t].screenY + terminals[t].screenX, SPACE);
        i := i + 1;
      }
    }

    /** The escape case, which also ends a run-on line. */
    method Escape(t: Term)
      requires Ok() && InRange(Console(t))
      modifies vram, terminals
      ensures Ok() && State() == WithView(old(State()), t, Screen.Place(old(Console(t)), ESCAPE))
    {
      terminals[t] := terminals[t].(runon := false);
      if terminals[t].screenY >= ROWS - 1 {
        Scroll(t);
      } else {
        terminals[t] := terminals[t].(screenX := 0);
        terminals[t] := terminals[t].(screenY := terminals[t].screenY + 1);
      }
    }

    /** Every other character, with the source's cursor arithmetic. */
    method Print(t: Term, c: Byte)
      requires Ok() && InRange(Console(t)) && c != BACKSPACE && c != TAB && !EndsRow(c)
      modifies vram, terminals
      ensures Ok() && State() == WithView(old(State()), t, Screen.Place(old(Console(t)), c))
    {
      PokeCell(t, COLS * terminals[t].screenY + terminals[t].screenX, c);
      var x := (terminals[t].screenX + 1) % COLS;
      terminals[t] := terminals[t].(screenX := x);
      terminals[t] := terminals[t].(screenY := (terminals[t].screenY + x / COLS) % ROWS);
    }

    /** The character cases, the same code in putc and echo. */
    method Place(t: Term, c: Byte)
      requires Ok() && InRange(Console(t)) && PutcSafe(Console(t), c)
      modifies vram, terminals
      ensures Ok() && State() == WithView(old(State()), t, Screen.Place(old(Console(t)), c))
    {
      if c == NEWLINE || c == RETURN {
        LineFeed(t, c);
      } else if c == BACKSPACE {
        Backspace(t);
      } else if c == TAB {
        Tab(t);
      } else if c == ESCAPE {
        Escape(t);
      } else {
        Print(t, c);
      }
    }

    /** The vertical scrolling test after the cases. */
    method ScrollIfFull(t: Term)
      requires Ok()
      modifies vram, terminals
      ensures Ok() && State() == WithView(old(State()), t, Screen.ScrollIfFull(old(Console(t))))
    {
      if terminals[t].screenX >= COLS - 1 && terminals[t].screenY >= ROWS - 1 {
        Scroll(t);
      }
    }

    /** The cases and the scrolling test, common to putc and echo. */
    method PlaceAndScroll(t: Term, c: Byte)
      requires Ok() && InRange(Console(t)) && PutcSafe(Console(t), c)
      modifies vram, terminals
      ensures Ok()
      ensures State() == WithView(old(State()), t, Screen.ScrollIfFull(Screen.Place(old(Console(t)), c)))
    {
      ghost var d, placed := State(), Screen.Place(Console(t), c);
      Place(t, c);
      WithViewIsLocal(d, t, placed);
      ScrollIfFull(t);
      WithViewAgain(d, t, placed, Screen.ScrollIfFull(placed));
    }

    method Wrap(t: Term)
      requires Ok()
      modifies terminals
      ensures Ok() && State() == WithView(old(State()), t, Screen.Wrap(old(Console(t))))
    {
      terminals[t] := terminals[t].(runon := true);
      terminals[t] := terminals[t].(screenY := terminals[t].screenY + 1);
      terminals[t] := terminals[t].(screenX := 0);
    }

    /** putc, for a process on terminal `t`. */
    method Putc(t: Term, c: Byte)
      requires Ok() && OnScreen(State()) && PutcSafe(Console(t), c)
      modifies vram, terminals
      ensures Ok() && State() == Terminals.Step(old(State()), PutAt(t, c))
      ensures OnScreen(State())
    {
      PutcInRange(Console(t), c);
      WithViewIsLocal(State(), t, Screen.Putc(Console(t), c));
      PlaceAndScroll(t, c);
      if terminals[t].screenX >= COLS - 1 {
        Wrap(t);
      }
    }

    /** echo, for a key typed at the displayed terminal. */
    method Echo(c: Byte)
      requires Ok() && OnScreen(State()) && EchoSafe(Console(currTerm), c)
      modifies vram, terminals
      ensures Ok() && State() == Terminals.Step(old(State()), KeyEcho(c))
      ensures OnScreen(State())
    {
      EchoInRange(Console(currTerm), c);
      WithViewIsLocal(State(), currTerm, Screen.Echo(Console(currTerm), c));
      PlaceAndScroll(currTerm, c);
      if terminals[currTerm].screenX == COLS - 1 {
        Wrap(currTerm);
      }
    }

    /** The page copy of term_switch: memset followed by memcpy. */
    method CopyPage(dst: int, src: int)
      requires Allocated() && 0 <= dst <= MAX_TERM && 0 <= src <= MAX_TERM && dst != src
      modifies vram
      ensures PagesOf(vram[..]) == old(PagesOf(vram[..]))[dst := old(PagesOf(vram[..]))[src]]
    {
      ghost var pages := PagesOf(vram[..]);
      CopyLoopStep(pages[dst], pages[src], 0);
      var i := 0;
      while i < FOURKB
        invariant 0 <= i <= FOURKB
        invariant PagesOf(vram[..]) == pages[dst := PartlyCopied(pages[dst], pages[src], i)]
      {
        CopyLoopStep(pages[dst], pages[src], i);
        var b := Load(VIDEO + FOURKB * src + i);
        Store(VIDEO + FOURKB * dst + i, b);
        i := i + 1;
      }
    }

    /** term_switch, up to its vidmap page-table entry. */
    method Switch(n: Term)
      requires Ok()
      modifies this`currTerm, vram, terminals
      ensures Ok() && State() == Terminals.Switch(old(State()), n)
    {
      if currTerm == n {
        return;
      }
      CopyPage(currTerm + 1, 0);
      CopyPage(0, n + 1);
      terminals[currTerm] := terminals[currTerm].(videoMem := VIDEO + FOURKB * (currTerm + 1));
      terminals[n] := terminals[n].(videoMem := VIDEO);
      currTerm := n;
    }

    /** The loop body of term_write: the first `i` bytes are written on what `d` was. */
    method WriteByte(t: Term, buf: seq<Byte>, i: nat, ghost d: Display)
      requires Ok() && OnScreen(State()) && Valid(d) && i < |buf| && CanWrite(View(d, t), buf)
      requires CanWrite(View(d, t), buf[..i]) && State() == WithView(d, t, Screen.Write(View(d, t), buf[..i]))
      modifies vram, terminals
      ensures Ok() && OnScreen(State()) && CanWrite(View(d, t), buf[..i + 1])
      ensures State() == WithView(d, t, Screen.Write(View(d, t), buf[..i + 1]))
    {
      WriteNext(View(d, t), buf, i);
      ghost var written := Screen.Write(View(d, t), buf[..i]);
      WithViewIsLocal(d, t, written);
      if buf[i] != NUL {
        WithViewAgain(d, t, written, Screen.Putc(written, buf[i]));
        Putc(t, buf[i]);
      }
    }

    /** term_write on terminal `t`: NUL bytes are skipped, the count is returned in full. */
    method Write(t: Term, buf: seq<Byte>) returns (r: int)
      requires Ok() && OnScreen(State()) && CanWrite(Console(t), buf)
      modifies vram, terminals
      ensures Ok() && OnScreen(State()) && r == |buf|
      ensures State() == WithView(old(State()), t, Screen.Write(old(Console(t)), buf))
    {
      ghost var d := State();
      var i := 0;
      while i < |buf|
        invariant 0 <= i <= |buf| && Ok() && OnScreen(State()) && CanWrite(View(d, t), buf[..i])
        invariant State() == WithView(d, t, Screen.Write(View(d, t), buf[..i]))
      {
        WriteByte(t, buf, i, d);
        i := i + 1;
      }
      assert buf[..i] == buf;
      r := |buf|;
    }
  }
}
