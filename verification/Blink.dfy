/** The blinking characters of fish/blink.S, as a step machine over the list of blinkers and
    the video memory, with their closed form in time. */
module Blink {
  import opened Bytes
  import opened Division

  const CELLS := 80 * 25
  const VMEM_SIZE := 4096

  type Word = w: int | 0 <= w < 0x10000

  /** mp1_blink_struct without its link; `on` is bit 0 of its status. */
  datatype Blinker = Blinker(
    location: Word, onChar: Byte, offChar: Byte, onLength: Word, offLength: Word, countdown: Word, on: bool)

  type Vmem = v: seq<Byte> | |v| == VMEM_SIZE witness seq(VMEM_SIZE, _ => 0)

  /** The list from its head on, and the screen. */
  datatype State = State(list: seq<Blinker>, vmem: Vmem)

  datatype Op =
    | Add(location: Word, onChar: Byte, offChar: Byte, onLength: Word, offLength: Word)
    | Remove(location: Word)
    | Sync(src: Word, dst: Word)
    | Tick

  /** mp1_poke at twice the location. */
  function Poke(vmem: Vmem, location: Word, c: Byte): Vmem {
    if 2 * location < VMEM_SIZE then vmem[2 * location := c] else vmem
  }

  // ---------------------------------------------------------------------- one tick

  /** A 16-bit register read as a signed number. */
  function Signed(w: Word): int {
    if w < 0x8000 then w else w - 0x10000
  }

  /** decw. */
  function Dec(w: Word): Word {
    if w == 0 then 0xFFFF else w - 1
  }

  function Glyph(b: Blinker): Byte {
    if b.on then b.onChar else b.offChar
  }

  /** The countdown runs out at this tick. */
  predicate Toggles(b: Blinker) {
    Signed(Dec(b.countdown)) <= 0
  }

  function TickOne(b: Blinker): Blinker {
    if !Toggles(b) then b.(countdown := Dec(b.countdown))
    else b.(countdown := if b.on then b.offLength else b.onLength, on := !b.on)
  }

  /** mp1_rtc_tasklet: front to back, a toggled blinker is painted in its new state. */
  function TickAll(list: seq<Blinker>, vmem: Vmem): State
    decreases |list|
  {
    if list == [] then State([], vmem)
    else
      var b := TickOne(list[0]);
      var rest := TickAll(list[1..], if Toggles(list[0]) then Poke(vmem, b.location, Glyph(b)) else vmem);
      State([b] + rest.list, rest.vmem)
  }

  // ------------------------------------------------------------------- the commands

  /** mp1_find_helper: the index of the first blinker at a location, or the list's length. */
  function Find(list: seq<Blinker>, location: Word): (i: nat)
    ensures i <= |list| && (i < |list| ==> list[i].location == location)
    ensures forall j :: 0 <= j < i ==> list[j].location != location
    decreases |list|
  {
    if list == [] || list[0].location == location then 0 else 1 + Find(list[1..], location)
  }

  function Added(op: Op): Blinker
    requires op.Add?
  {
    Blinker(op.location, op.onChar, op.offChar, op.onLength, op.offLength, op.onLength, true)
  }

  /** `dst` with the timing of `src`. */
  function Synced(dst: Blinker, src: Blinker): Blinker {
    dst.(onLength := src.onLength, offLength := src.offLength, countdown := src.countdown, on := src.on)
  }

  /** A step, and whether it returns 0. */
  predicate Succeeds(s: State, op: Op) {
    match op
    case Add(location, _, _, _, _) => location < CELLS && |s.list| < CELLS
    case Remove(location) => Find(s.list, location) < |s.list|
    case Sync(src, dst) => Find(s.list, src) < |s.list| && Find(s.list, dst) < |s.list|
    case Tick => true
  }

  function Step(s: State, op: Op): State {
    if !Succeeds(s, op) then s
    else
      match op
      case Add(location, onChar, _, _, _) => State([Added(op)] + s.list, Poke(s.vmem, location, onChar))
      case Remove(location) =>
        var i := Find(s.list, location);
        s.(list := s.list[..i] + s.list[i + 1..])
      case Sync(src, dst) =>
        var j := Find(s.list, dst);
        var b := Synced(s.list[j], s.list[Find(s.list, src)]);
        // the conditional move never selects the on character
        State(s.list[j := b], Poke(s.vmem, b.location, b.offChar))
      case Tick => TickAll(s.list, s.vmem)
  }

  lemma AddStep(s: State, op: Op)
    requires op.Add? && op.location < CELLS && |s.list| < CELLS
    ensures Step(s, op) == State([Added(op)] + s.list, Poke(s.vmem, op.location, op.onChar))
  {
  }

  function Run(s: State, ops: seq<Op>): State
    decreases |ops|
  {
    if ops == [] then s else Run(Step(s, ops[0]), ops[1..])
  }

  function Ticks(ops: seq<Op>): nat
    decreases |ops|
  {
    if ops == [] then 0 else (if ops[0].Tick? then 1 else 0) + Ticks(ops[1..])
  }

  // ------------------------------------------------- one location through one step

  /** The blinkers at a location, the most recently added first. */
  function At(list: seq<Blinker>, location: Word): (stack: seq<Blinker>)
    ensures forall k :: 0 <= k < |stack| ==> stack[k].location == location
    decreases |list|
  {
    if list == [] then []
    else (if list[0].location == location then [list[0]] else []) + At(list[1..], location)
  }

  /** mp1_find_helper gives the top of that stack. */
  lemma {:induction false} FindIsTop(list: seq<Blinker>, location: Word)
    ensures Find(list, location) < |list| <==> At(list, location) != []
    ensures Find(list, location) < |list| ==> list[Find(list, location)] == At(list, location)[0]
    decreases |list|
  {
    if list != [] && list[0].location != location {
      FindIsTop(list[1..], location);
    }
  }

  lemma {:induction false} AtConcat(a: seq<Blinker>, b: seq<Blinker>, location: Word)
    ensures At(a + b, location) == At(a, location) + At(b, location)
    decreases |a|
  {
    if a == [] {
      assert a + b == b;
    } else {
      AtConcat(a[1..], b, location);
      assert (a + b)[1..] == a[1..] + b;
    }
  }

  lemma AtOne(b: Blinker, location: Word)
    ensures At([b], location) == if b.location == location then [b] else []
  {
    assert [b][1..] == [];
  }

  lemma {:induction false} AtNone(list: seq<Blinker>, location: Word)
    requires forall k :: 0 <= k < |list| ==> list[k].location != location
    ensures At(list, location) == []
    decreases |list|
  {
    if list != [] {
      AtNone(list[1..], location);
    }
  }

  /** What stands at a location around the blinker at position `i`. */
  lemma AtAround(list: seq<Blinker>, i: nat, b: Blinker, location: Word)
    requires i < |list|
    ensures At(list[i := b], location) ==
      At(list[..i], location) + (if b.location == location then [b] else []) + At(list[i + 1..], location)
  {
    assert list[i := b] == list[..i] + [b] + list[i + 1..];
    AtConcat(list[..i] + [b], list[i + 1..], location);
    AtConcat(list[..i], [b], location);
    AtOne(b, location);
  }

  lemma {:induction false} TickAllLength(list: seq<Blinker>, vmem: Vmem)
    ensures |TickAll(list, vmem).list| == |list|
    ensures forall i :: 0 <= i < |list| ==> TickAll(list, vmem).list[i] == TickOne(list[i])
    decreases |list|
  {
    if list != [] {
      var b := TickOne(list[0]);
      TickAllLength(list[1..], if Toggles(list[0]) then Poke(vmem, b.location, Glyph(b)) else vmem);
    }
  }

  function TickEach(stack: seq<Blinker>): seq<Blinker> {
    seq(|stack|, k requires 0 <= k < |stack| => TickOne(stack[k]))
  }

  lemma {:induction false} TickAllAt(list: seq<Blinker>, vmem: Vmem, location: Word)
    ensures At(TickAll(list, vmem).list, location) == TickEach(At(list, location))
    decreases |list|
  {
    if list != [] {
      var b := TickOne(list[0]);
      var vmem' := if Toggles(list[0]) then Poke(vmem, b.location, Glyph(b)) else vmem;
      TickAllAt(list[1..], vmem', location);
      AtConcat([b], TickAll(list[1..], vmem').list, location);
      AtOne(b, location);
    }
  }

  /** The same step on the stack of one location: ADD pushes, REMOVE pops, SYNC re-times the
      top after the top of the other location, a tick ages all. */
  function StackStep(s: State, op: Op, location: Word): seq<Blinker> {
    var stack := At(s.list, location);
    match op
    case Add(l, _, _, _, _) => if l == location && Succeeds(s, op) then [Added(op)] + stack else stack
    case Remove(l) => if l == location && stack != [] then stack[1..] else stack
    case Sync(src, dst) =>
      if dst == location && stack != [] && At(s.list, src) != [] then stack[0 := Synced(stack[0], At(s.list, src)[0])]
      else stack
    case Tick => TickEach(stack)
  }

  /** The stack of a location, with and without the blinker at position `i`. */
  lemma CutAt(list: seq<Blinker>, i: nat, location: Word) returns (above: seq<Blinker>, below: seq<Blinker>)
    requires i < |list|
    ensures above == At(list[..i], location)
    ensures At(list[..i] + list[i + 1..], location) == above + below
    ensures At(list, location) == above + (if list[i].location == location then [list[i]] else []) + below
  {
    above, below := At(list[..i], location), At(list[i + 1..], location);
    AtConcat(list[..i], list[i + 1..], location);
    AtAround(list, i, list[i], location);
    assert list[i := list[i]] == list;
  }

  lemma RemoveHere(list: seq<Blinker>, i: nat, location: Word)
    requires i < |list| && list[i].location == location
    requires forall j :: 0 <= j < i ==> list[j].location != location
    ensures At(list, location) == [list[i]] + At(list[..i] + list[i + 1..], location)
  {
    var above, below := CutAt(list, i, location);
    AtNone(list[..i], location);
    assert [] + below == below && [] + [list[i]] + below == [list[i]] + below;
  }

  lemma RemoveElsewhere(list: seq<Blinker>, i: nat, location: Word)
    requires i < |list| && list[i].location != location
    ensures At(list[..i] + list[i + 1..], location) == At(list, location)
  {
    var above, below := CutAt(list, i, location);
    assert above + [] + below == above + below;
  }

  lemma RetimeAt(list: seq<Blinker>, dst: Word, b: Blinker, location: Word)
    requires Find(list, dst) < |list| && b.location == dst
    ensures At(list[Find(list, dst) := b], location) ==
      if dst == location && At(list, location) != [] then At(list, location)[0 := b] else At(list, location)
  {
    var i := Find(list, dst);
    AtAround(list, i, b, location);
    AtAround(list, i, list[i], location);
    assert list[i := list[i]] == list;
    if dst == location {
      AtNone(list[..i], location);
    }
  }

  /** Every step on the list is that step on the stack of every location. */
  lemma StepIsStackStep(s: State, op: Op, location: Word)
    ensures At(Step(s, op).list, location) == StackStep(s, op, location)
  {
    match op
    case Add(l, _, _, _, _) =>
      if Succeeds(s, op) {
        AddStep(s, op);
        AtConcat([Added(op)], s.list, location);
        AtOne(Added(op), location);
      }
    case Remove(l) =>
      FindIsTop(s.list, l);
      if Succeeds(s, op) {
        if l == location {
          RemoveHere(s.list, Find(s.list, l), l);
        } else {
          RemoveElsewhere(s.list, Find(s.list, l), location);
        }
      }
    case Sync(src, dst) =>
      FindIsTop(s.list, src);
      FindIsTop(s.list, dst);
      if Succeeds(s, op) {
        var i, j := Find(s.list, src), Find(s.list, dst);
        RetimeAt(s.list, dst, Synced(s.list[j], s.list[i]), location);
      }
    case Tick => TickAllAt(s.list, s.vmem, location);
  }

  /** When a command fails, and that it then does nothing: ADD works at every cell of the screen while
      the list is not full, REMOVE and SYNC wherever there are blinkers. */
  lemma CommandsFail(s: State, op: Op)
    ensures Succeeds(s, op) <==>
      match op
      case Add(l, _, _, _, _) => l < 80 * 25 && |s.list| < 80 * 25
      case Remove(l) => At(s.list, l) != []
      case Sync(src, dst) => At(s.list, src) != [] && At(s.list, dst) != []
      case Tick => true
    ensures !Succeeds(s, op) ==> Step(s, op) == s
  {
    match op
    case Remove(l) => FindIsTop(s.list, l);
    case Sync(src, dst) =>
      FindIsTop(s.list, src);
      FindIsTop(s.list, dst);
    case _ =>
  }

  // ------------------------------------------------------------------- whole histories

  lemma {:induction false} RunSnoc(s: State, ops: seq<Op>, op: Op)
    ensures Run(s, ops + [op]) == Step(Run(s, ops), op)
    decreases |ops|
  {
    if ops == [] {
      assert [] + [op] == [op] && [op][1..] == [];
    } else {
      assert (ops + [op])[1..] == ops[1..] + [op];
      RunSnoc(Step(s, ops[0]), ops[1..], op);
    }
  }

  /** One operation more: a successful ADD at the location comes in front, a REMOVE there undoes the
      latest. */
  function NextPending(s: State, op: Op, location: Word, adds: seq<Op>): seq<Op> {
    if op.Add? && op.location == location && Succeeds(s, op) then [op] + adds
    else if op == Remove(location) && adds != [] then adds[1..]
    else adds
  }

  /** The ADD operations at a location that no REMOVE has undone, the latest first. */
  function Pending(s: State, ops: seq<Op>, location: Word): (adds: seq<Op>)
    ensures forall k :: 0 <= k < |adds| ==> adds[k].Add? && adds[k].location == location
    decreases |ops|
  {
    if ops == [] then []
    else NextPending(Run(s, ops[..|ops| - 1]), ops[|ops| - 1], location, Pending(s, ops[..|ops| - 1], location))
  }

  /** The blinker was made by that ADD; only its timing may have changed since. */
  predicate MadeBy(b: Blinker, add: Op)
    requires add.Add?
  {
    b.location == add.location && b.onChar == add.onChar && b.offChar == add.offChar
  }

  ghost predicate Matches(stack: seq<Blinker>, adds: seq<Op>) {
    |stack| == |adds| && forall k :: 0 <= k < |adds| ==> adds[k].Add? && MadeBy(stack[k], adds[k])
  }

  lemma StackStepMatches(s: State, op: Op, location: Word, adds: seq<Op>)
    requires Matches(At(s.list, location), adds)
    ensures Matches(StackStep(s, op, location), NextPending(s, op, location, adds))
  {
    var stack, stack' := At(s.list, location), StackStep(s, op, location);
    match op
    case Add(_, _, _, _, _) =>
    case Remove(_) =>
    case Sync(_, _) =>
      assert |stack'| == |stack| && forall k :: 1 <= k < |stack| ==> stack'[k] == stack[k];
    case Tick =>
      assert forall k :: 0 <= k < |stack| ==> stack'[k] == TickOne(stack[k]);
  }

  /** After every history the blinkers at a location are the pending ADDs, in that order. */
  lemma {:induction false} StackIsPending(s: State, ops: seq<Op>, location: Word)
    requires s.list == []
    ensures Matches(At(Run(s, ops).list, location), Pending(s, ops, location))
    decreases |ops|
  {
    if ops != [] {
      var before, op := ops[..|ops| - 1], ops[|ops| - 1];
      assert before + [op] == ops;
      StackIsPending(s, before, location);
      RunSnoc(s, before, op);
      StepIsStackStep(Run(s, before), op, location);
      StackStepMatches(Run(s, before), op, location, Pending(s, before, location));
    }
  }

  /** So after every history find fails exactly when nothing is pending, and otherwise gives the
      blinker of the most recent ADD at the location that has not been removed. */
  lemma FindIsMostRecent(s: State, ops: seq<Op>, location: Word)
    requires s.list == []
    ensures var list, adds := Run(s, ops).list, Pending(s, ops, location);
      && (Find(list, location) < |list| <==> adds != [])
      && (adds != [] ==> MadeBy(list[Find(list, location)], adds[0]))
  {
    StackIsPending(s, ops, location);
    FindIsTop(Run(s, ops).list, location);
  }

  // ------------------------------------------------------ one location through a run

  /** The operation neither adds, removes nor re-times a blinker at the location. */
  predicate Spares(op: Op, location: Word) {
    match op
    case Add(l, _, _, _, _) => l != location
    case Remove(l) => l != location
    case Sync(_, dst) => dst != location
    case Tick => true
  }

  predicate AllSpare(ops: seq<Op>, location: Word) {
    forall k :: 0 <= k < |ops| ==> Spares(ops[k], location)
  }

  function AfterTicks(b: Blinker, t: nat): Blinker {
    if t == 0 then b else TickOne(AfterTicks(b, t - 1))
  }

  lemma {:induction false} AfterTicksLeft(b: Blinker, t: nat)
    ensures AfterTicks(TickOne(b), t) == AfterTicks(b, t + 1)
  {
    if t > 0 {
      AfterTicksLeft(b, t - 1);
    }
  }

  function AgeEach(stack: seq<Blinker>, t: nat): (r: seq<Blinker>)
    ensures |r| == |stack|
  {
    seq(|stack|, k requires 0 <= k < |stack| => AfterTicks(stack[k], t))
  }

  /** As long as a location is spared, the blinkers there, however many, only age. */
  lemma {:induction false} RunAgesStack(s: State, ops: seq<Op>, location: Word)
    requires AllSpare(ops, location)
    ensures At(Run(s, ops).list, location) == AgeEach(At(s.list, location), Ticks(ops))
    decreases |ops|
  {
    if ops != [] {
      var stack, rest := At(s.list, location), ops[1..];
      assert Spares(ops[0], location) && AllSpare(rest, location);
      StepIsStackStep(s, ops[0], location);
      RunAgesStack(Step(s, ops[0]), rest, location);
      forall k | 0 <= k < |stack|
        ensures AfterTicks(TickOne(stack[k]), Ticks(rest)) == AfterTicks(stack[k], Ticks(rest) + 1)
      {
        AfterTicksLeft(stack[k], Ticks(rest));
      }
    }
  }

  // -------------------------------------------------------------------- the cell

  /** There is a blinker at the location, and every blinker there is in state `b`. */
  ghost predicate Holds(list: seq<Blinker>, location: Word, b: Blinker) {
    && b.location == location && At(list, location) != []
    && forall k :: 0 <= k < |At(list, location)| ==> At(list, location)[k] == b
  }

  /** A tick paints the cell of a location only through the blinkers there. */
  lemma {:induction false} TickCell(list: seq<Blinker>, vmem: Vmem, b: Blinker)
    requires b.location < CELLS
    requires forall k :: 0 <= k < |At(list, b.location)| ==> At(list, b.location)[k] == b
    ensures TickAll(list, vmem).vmem[2 * b.location] ==
      if Toggles(b) && At(list, b.location) != [] then Glyph(TickOne(b)) else vmem[2 * b.location]
    decreases |list|
  {
    if list != [] {
      var first := TickOne(list[0]);
      var vmem' := if Toggles(list[0]) then Poke(vmem, first.location, Glyph(first)) else vmem;
      var here, rest := At(list, b.location), At(list[1..], b.location);
      if list[0].location == b.location {
        assert here == [list[0]] + rest && here[0] == b;
        assert forall k :: 0 <= k < |rest| ==> rest[k] == here[k + 1];
      } else {
        assert here == rest;
      }
      TickCell(list[1..], vmem', b);
    }
  }

  /** The cell of a blinker shows its state. */
  predicate Painted(s: State, b: Blinker) {
    b.location < CELLS && s.vmem[2 * b.location] == Glyph(b)
  }

  function AfterOp(b: Blinker, op: Op): Blinker {
    if op.Tick? then TickOne(b) else b
  }

  /** A step that spares a location only lets time pass there. */
  lemma StepKeepsEntry(s: State, op: Op, b: Blinker)
    requires Holds(s.list, b.location, b) && Spares(op, b.location)
    ensures Holds(Step(s, op).list, b.location, AfterOp(b, op))
  {
    StepIsStackStep(s, op, b.location);
  }

  lemma StepKeepsPainted(s: State, op: Op, b: Blinker)
    requires Holds(s.list, b.location, b) && Spares(op, b.location) && Painted(s, b)
    ensures Painted(Step(s, op), AfterOp(b, op))
  {
    if op.Tick? {
      TickCell(s.list, s.vmem, b);
    }
  }

  /** The cell keeps showing the blinker's state. */
  lemma {:induction false} RunKeepsPainted(s: State, ops: seq<Op>, b: Blinker)
    requires Holds(s.list, b.location, b) && AllSpare(ops, b.location) && Painted(s, b)
    ensures Painted(Run(s, ops), AfterTicks(b, Ticks(ops)))
    decreases |ops|
  {
    if ops != [] {
      StepKeepsEntry(s, ops[0], b);
      StepKeepsPainted(s, ops[0], b);
      var rest := ops[1..];
      assert AllSpare(rest, b.location);
      RunKeepsPainted(Step(s, ops[0]), rest, AfterOp(b, ops[0]));
      AfterTicksLeft(b, Ticks(rest));
    }
  }

  /** A tick writes only characters, and only where there is a blinker. */
  lemma {:induction false} TickLeaves(list: seq<Blinker>, vmem: Vmem, i: nat)
    requires i < VMEM_SIZE && (i % 2 == 0 ==> At(list, i / 2) == [])
    ensures TickAll(list, vmem).vmem[i] == vmem[i]
    decreases |list|
  {
    if list != [] {
      var b := TickOne(list[0]);
      TickLeaves(list[1..], if Toggles(list[0]) then Poke(vmem, b.location, Glyph(b)) else vmem, i);
    }
  }

  /** Over every run the attributes, and the characters at locations without a blinker, stay. */
  lemma {:induction false} OtherBytesStay(s: State, ops: seq<Op>, i: nat)
    requires i < VMEM_SIZE && (i % 2 == 0 ==> At(s.list, i / 2) == [] && AllSpare(ops, i / 2))
    ensures Run(s, ops).vmem[i] == s.vmem[i]
    decreases |ops|
  {
    if ops != [] {
      if ops[0].Tick? {
        TickLeaves(s.list, s.vmem, i);
      }
      if i % 2 == 0 {
        assert Spares(ops[0], i / 2) && AllSpare(ops[1..], i / 2);
        StepIsStackStep(s, ops[0], i / 2);
      }
      OtherBytesStay(Step(s, ops[0]), ops[1..], i);
    }
  }

  /** After REMOVE of the only blinker of a location its cell stays as it was, until something is
      added or re-timed there. */
  lemma RemovedCellStays(s: State, location: Word, ops: seq<Op>)
    requires location < CELLS && |At(s.list, location)| == 1 && AllSpare(ops, location)
    ensures Run(Step(s, Remove(location)), ops).vmem[2 * location] == s.vmem[2 * location]
  {
    StepIsStackStep(s, Remove(location), location);
    OtherBytesStay(Step(s, Remove(location)), ops, 2 * location);
  }

  // ------------------------------------------------------------------- closed form

  /** How many ticks a phase of the given length lasts: the countdown is compared as a signed
      16-bit number, so 0 and lengths above 0x8000 end at the next tick. */
  function Lasts(length: Word): (n: nat)
    ensures n >= 1
  {
    if 1 <= length <= 0x8000 then length else 1
  }

  function Period(b: Blinker): (n: nat)
    ensures n >= 2
  {
    Lasts(b.onLength) + Lasts(b.offLength)
  }

  /** The state `m` ticks into a period that starts with the blinker just turned on. */
  function InPeriod(b: Blinker, m: nat): Blinker
    requires m < Period(b)
  {
    if m < Lasts(b.onLength)
    then b.(on := true, countdown := if m == 0 then b.onLength else b.onLength - m)
    else
      var u := m - Lasts(b.onLength);
      b.(on := false, countdown := if u == 0 then b.offLength else b.offLength - u)
  }

  lemma TickInPeriod(b: Blinker, m: nat)
    requires m < Period(b)
    ensures TickOne(InPeriod(b, m)) == InPeriod(b, if m + 1 == Period(b) then 0 else m + 1)
  {
  }

  /** `t` ticks after it was turned on with a full countdown, for every pair of lengths. */
  lemma {:induction false} ClosedForm(b: Blinker, t: nat)
    requires b == InPeriod(b, 0)
    ensures AfterTicks(b, t) == InPeriod(b, t % Period(b))
  {
    if t == 0 {
      assert 0 % Period(b) == 0;
    } else {
      ClosedForm(b, t - 1);
      NextRemainder(t - 1, Period(b));
      TickInPeriod(b, (t - 1) % Period(b));
    }
  }

  /** After ADD at a free location, and as long as that blinker is neither removed nor
      re-timed nor another one added there, its cell shows the on character exactly when
      the ticks modulo the period fall into the on phase, whatever other blinkers do. */
  lemma BlinkerShows(s: State, add: Op, ops: seq<Op>)
    requires add.Add? && Succeeds(s, add) && AllSpare(ops, add.location)
    requires forall i :: 0 <= i < |s.list| ==> s.list[i].location != add.location
    ensures Run(Step(s, add), ops).vmem[2 * add.location] ==
      if Ticks(ops) % (Lasts(add.onLength) + Lasts(add.offLength)) < Lasts(add.onLength)
      then add.onChar else add.offChar
  {
    var b := Added(add);
    StepIsStackStep(s, add, b.location);
    AtNone(s.list, b.location);
    RunKeepsPainted(Step(s, add), ops, b);
    ClosedForm(b, Ticks(ops));
  }

  // ------------------------------------------------------------------------- syncing

  predicate SameTiming(a: Blinker, b: Blinker) {
    a.onLength == b.onLength && a.offLength == b.offLength && a.countdown == b.countdown && a.on == b.on
  }

  lemma {:induction false} SameTimingStays(a: Blinker, b: Blinker, t: nat)
    requires SameTiming(a, b)
    ensures SameTiming(AfterTicks(a, t), AfterTicks(b, t))
  {
    if t > 0 {
      SameTimingStays(a, b, t - 1);
    }
  }

  /** The two blinkers that find gives for two locations stay in step from a SYNC until one of
      the locations is touched, whatever else is on the list. */
  lemma SyncedStayTogether(s: State, src: Word, dst: Word, ops: seq<Op>)
    requires Succeeds(s, Sync(src, dst)) && AllSpare(ops, src) && AllSpare(ops, dst)
    ensures var list := Run(Step(s, Sync(src, dst)), ops).list;
      && Find(list, src) < |list| && Find(list, dst) < |list|
      && SameTiming(list[Find(list, src)], list[Find(list, dst)])
  {
    var s1 := Step(s, Sync(src, dst));
    FindIsTop(s.list, src);
    FindIsTop(s.list, dst);
    StepIsStackStep(s, Sync(src, dst), src);
    StepIsStackStep(s, Sync(src, dst), dst);
    RunAgesStack(s1, ops, src);
    RunAgesStack(s1, ops, dst);
    SameTimingStays(At(s1.list, src)[0], At(s1.list, dst)[0], Ticks(ops));
    FindIsTop(Run(s1, ops).list, src);
    FindIsTop(Run(s1, ops).list, dst);
  }

  /** SYNC itself paints the off character, whatever the copied state is, so the cell is
      right immediately afterwards exactly when the state is off or the characters agree. */
  lemma SyncPaintsOff(s: State, src: Word, dst: Word)
    requires Succeeds(s, Sync(src, dst)) && dst < CELLS
    ensures var s' := Step(s, Sync(src, dst));
      var b := s'.list[Find(s.list, dst)];
      Painted(s', b) <==> !b.on || b.onChar == b.offChar
  {
  }
}
