/** Kernel runs in which every program is started on its caller's own terminal: the parent chains
    of the process table then hold, execute and halt bracket, and execute is a call. */
module KernelCalls {
  import opened Descriptors
  import opened KernelState
  import opened Paging
  import opened ProcessTable

  /** What the process table sees of a step. */
  function EventOf(k: Kernel, op: Op): seq<Event>
    requires KernelShape(k)
  {
    match op
    case Exec(prog, _) => [Execute(k.currTerm, Loads(k, prog))]
    case Exit => [Halt]
    case Schedule(_) => [Tick]
    case _ => []
  }

  /** A program that is started is started on the terminal of its caller. */
  predicate OnOwnTerminal(k: Kernel, op: Op)
    requires KernelShape(k)
  {
    op.Exec? && Loads(k, op.prog) && Child(k.procs) < MAX_PID ==> k.currTerm == Home(k.procs)
  }

  ghost predicate KernelInv(k: Kernel, chains: Chains) {
    KernelShape(k) && Inv(k.procs, chains) && MemoryInv(k) && Follows(k) && FilesInv(k)
  }

  function DoChains(k: Kernel, chains: Chains, op: Op): Chains
    requires KernelShape(k)
  {
    if EventOf(k, op) == [] then chains else StepChains(k.procs, chains, EventOf(k, op)[0])
  }

  /** The process-table part of a kernel step is a process-table step. */
  lemma DoRefinesTable(k: Kernel, op: Op)
    requires KernelShape(k) && Allowed(k, op)
    ensures Do(k, op).procs == if EventOf(k, op) == [] then k.procs else Step(k.procs, EventOf(k, op)[0])
  {
  }

  lemma DoKeepsTable(k: Kernel, chains: Chains, op: Op)
    requires KernelInv(k, chains) && Allowed(k, op) && OnOwnTerminal(k, op)
    ensures Inv(Do(k, op).procs, DoChains(k, chains, op))
  {
    DoRefinesTable(k, op);
    if EventOf(k, op) != [] {
      StepKeepsInv(k.procs, chains, EventOf(k, op)[0]);
    }
  }

  /** Every such step keeps the process chains, the page tables and the descriptor tables
      consistent with one another. */
  lemma DoKeepsInv(k: Kernel, chains: Chains, op: Op)
    requires KernelInv(k, chains) && Allowed(k, op) && OnOwnTerminal(k, op)
    ensures KernelInv(Do(k, op), DoChains(k, chains, op))
  {
    DoKeepsTable(k, chains, op);
    DoKeepsMemory(k, op);
    StepFollows(k, op);
    DoKeepsFiles(k, op);
  }

  /** The boot sequence establishes the invariant. */
  lemma BootedKernelInv(base0: int, base1: int, shell: Program, frame: int)
    requires base0 % Paging.FOUR_KB == 0 && base1 % Paging.FOUR_KB == 0 && base0 != base1 && shell.Executable?
    ensures KernelInv(Booted(base0, base1, shell, frame), SHELLS)
  {
    BootedInv();
    BootedMemory(base0, base1, shell, frame);
  }

  // ----------------------------------------------------------------------------- runs

  ghost predicate OnOwnTerminals(k: Kernel, ops: seq<Op>)
    requires KernelCanRun(k, ops)
    decreases |ops|
  {
    ops == [] || (OnOwnTerminal(k, ops[0]) && OnOwnTerminals(Do(k, ops[0]), ops[1..]))
  }

  ghost function Events(k: Kernel, ops: seq<Op>): seq<Event>
    requires KernelCanRun(k, ops)
    decreases |ops|
  {
    if ops == [] then [] else EventOf(k, ops[0]) + Events(Do(k, ops[0]), ops[1..])
  }

  /** Every such kernel run is a run of the process table. */
  lemma {:induction false} KernelRunIsTableRun(k: Kernel, ops: seq<Op>)
    requires KernelCanRun(k, ops) && OnOwnTerminals(k, ops)
    ensures CanRun(k.procs, Events(k, ops)) && Run(k.procs, Events(k, ops)) == KernelRun(k, ops).procs
    decreases |ops|
  {
    if ops != [] {
      var rest := Events(Do(k, ops[0]), ops[1..]);
      KernelRunIsTableRun(Do(k, ops[0]), ops[1..]);
      DoRefinesTable(k, ops[0]);
      if EventOf(k, ops[0]) == [] {
        assert Events(k, ops) == rest;
      } else {
        assert Events(k, ops)[0] == EventOf(k, ops[0])[0] && Events(k, ops)[1..] == rest;
      }
    }
  }

  lemma {:induction false} KernelRunKeepsInv(k: Kernel, chains: Chains, ops: seq<Op>) returns (chains': Chains)
    requires KernelInv(k, chains) && KernelCanRun(k, ops) && OnOwnTerminals(k, ops)
    ensures KernelInv(KernelRun(k, ops), chains')
    decreases |ops|
  {
    if ops == [] {
      chains' := chains;
    } else {
      DoKeepsInv(k, chains, ops[0]);
      chains' := KernelRunKeepsInv(Do(k, ops[0]), DoChains(k, chains, ops[0]), ops[1..]);
    }
  }

  /** In such a run no step strays and none litters. */
  lemma {:induction false} OwnTerminalRunsFollow(k: Kernel, chains: Chains, ops: seq<Op>)
    requires KernelInv(k, chains) && KernelCanRun(k, ops) && OnOwnTerminals(k, ops)
    ensures NeverStrays(k, ops) && NeverLitters(k, ops)
    decreases |ops|
  {
    if ops != [] {
      DoKeepsInv(k, chains, ops[0]);
      OwnTerminalRunsFollow(Do(k, ops[0]), DoChains(k, chains, ops[0]), ops[1..]);
    }
  }

  // ----------------------------------------------------------------------- bracketing

  /** A run on own terminals that is well nested on terminal `t`, `d` executes deep. */
  ghost predicate NestedRun(k: Kernel, ops: seq<Op>, t: Term, d: nat) {
    && KernelCanRun(k, ops) && OnOwnTerminals(k, ops)
    && CanRun(k.procs, Events(k, ops)) && WellNested(k.procs, Events(k, ops), t, d)
  }

  /** How deep a terminal is nested after an event. */
  function Deeper(s: Procs, e: Event, t: Term, d: nat): int
    requires Shape(s)
  {
    if Home(s) == t && Succeeds(s, e) then d + 1 else if Home(s) == t && e.Halt? then d - 1 else d
  }

  lemma NestedChain(s: Procs, chains: Chains, e: Event, t: Term, base: seq<int>, d: nat)
    requires Shape(s) && |chains[t]| == |base| + d && chains[t][..|base|] == base && Deeper(s, e, t, d) >= 0
    ensures var c := StepChains(s, chains, e)[t]; |c| == |base| + Deeper(s, e, t, d) && c[..|base|] == base
  {
  }

  /** One kernel step of a well-nested run, seen on the chain of terminal `t`. */
  lemma NestedStep(k: Kernel, chains: Chains, ops: seq<Op>, t: Term, base: seq<int>, d: nat) returns (d': nat)
    requires ops != [] && NestedRun(k, ops, t, d)
    requires |chains[t]| == |base| + d && chains[t][..|base|] == base
    ensures NestedRun(Do(k, ops[0]), ops[1..], t, d')
    ensures |DoChains(k, chains, ops[0])[t]| == |base| + d' && DoChains(k, chains, ops[0])[t][..|base|] == base
    ensures ops[0].Exit? && Home(k.procs) == t ==> d > 0
  {
    var rest := Events(Do(k, ops[0]), ops[1..]);
    DoRefinesTable(k, ops[0]);
    if EventOf(k, ops[0]) == [] {
      assert Events(k, ops) == rest;
      d' := d;
    } else {
      var e := EventOf(k, ops[0])[0];
      assert Events(k, ops)[0] == e && Events(k, ops)[1..] == rest;
      d' := Deeper(k.procs, e, t, d);
      NestedChain(k.procs, chains, e, t, base, d);
    }
  }

  /** In a well-nested run only processes above the base of the chain halt. */
  lemma {:induction false} NestedHaltsSpareBase(
    k: Kernel, chains: Chains, ops: seq<Op>, t: Term, base: seq<int>, d: nat, p: Pid)
    requires KernelInv(k, chains) && NestedRun(k, ops, t, d)
    requires |chains[t]| == |base| + d && chains[t][..|base|] == base && p in base
    ensures NeverHalts(k, ops, p)
    decreases |ops|
  {
    if ops != [] {
      var d' := NestedStep(k, chains, ops, t, base, d);
      DoKeepsInv(k, chains, ops[0]);
      NestedHaltsSpareBase(Do(k, ops[0]), DoChains(k, chains, ops[0]), ops[1..], t, base, d', p);
      if ops[0].Exit? {
        HaltSparesBase(k.procs, chains, t, base, p);
      }
    }
  }

  lemma HaltSparesBase(s: Procs, chains: Chains, t: Term, base: seq<int>, p: Pid)
    requires Inv(s, chains) && |base| <= |chains[t]| && chains[t][..|base|] == base && p in base
    requires Home(s) == t ==> |base| < |chains[t]|
    ensures s.currPid != p
  {
    var c := chains[t];
    assert IsChain(s, t, c);
    var i :| 0 <= i < |base| && base[i] == p;
    assert c[i] == p && s.pidToTerm[c[i]] == t;
    if Home(s) == t {
      CurrentIsLast(s, chains);
    }
  }

  /** Bracketing for the whole kernel: whatever the other terminals do meanwhile, a well-nested
      run of executes and halts started by process `p` leaves its terminal's chain, its open
      descriptors and its return frame as they were, and when `p`'s terminal has the processor
      again, `p` runs in its own address space. */
  lemma KernelBracketing(k: Kernel, chains: Chains, ops: seq<Op>, p: Pid)
    requires KernelInv(k, chains) && p == Current(k) && NestedRun(k, ops, Home(k.procs), 0)
    requires NoOwnFileOps(k, ops, p)
    ensures var k' := KernelRun(k, ops);
      && k'.procs.topPid[Home(k.procs)] == p && !k'.procs.freePid[p]
      && OpenFiles(k'.files[p]) == OpenFiles(k.files[p])
      && k'.parentFrame[p] == k.parentFrame[p]
      && (Home(k'.procs) == Home(k.procs) ==>
            && k'.procs.currPid == p
            && SameProgram(k, k'))
  {
    var t := Home(k.procs);
    CurrentIsLast(k.procs, chains);
    KernelRunIsTableRun(k, ops);
    Bracketing(k.procs, chains, Events(k, ops), t);
    assert chains[t][..|chains[t]|] == chains[t];
    NestedHaltsSpareBase(k, chains, ops, t, chains[t], 0, p);
    OpenFilesAreKept(k, ops, p);
    ReturnFrameIsKept(k, ops, p);
    var chains' := KernelRunKeepsInv(k, chains, ops);
    if Current(KernelRun(k, ops)) == p {
      SameProgramMemory(k, KernelRun(k, ops));
    }
  }

  // -------------------------------------------------------------------- context switch

  function ScheduleCount(ops: seq<Op>): nat {
    if ops == [] then 0 else (if ops[0].Schedule? then 1 else 0) + ScheduleCount(ops[1..])
  }

  /** One step while another terminal runs, seen on terminal `t`. */
  lemma KernelStepAway(k: Kernel, chains: Chains, op: Op, t: Term)
    requires KernelInv(k, chains) && Allowed(k, op) && OnOwnTerminal(k, op) && Home(k.procs) != t
    ensures KernelInv(Do(k, op), DoChains(k, chains, op))
    ensures Current(k) != k.procs.topPid[t] && Do(k, op).procs.topPid[t] == k.procs.topPid[t]
    ensures Wait(Home(Do(k, op).procs), t) == Wait(Home(k.procs), t) - (if op.Schedule? then 1 else 0)
  {
    DoKeepsInv(k, chains, op);
    DoRefinesTable(k, op);
    TopIsHome(k.procs, chains, t);
    if EventOf(k, op) != [] {
      StepAway(k.procs, chains, EventOf(k, op)[0], t);
    }
  }

  /** Until enough ticks have come for terminal `t` to have its turn, its top process does not run. */
  lemma {:induction false} WaitsForItsTurn(k: Kernel, chains: Chains, ops: seq<Op>, t: Term)
    requires KernelInv(k, chains) && KernelCanRun(k, ops) && OnOwnTerminals(k, ops)
    requires ScheduleCount(ops) < Wait(Home(k.procs), t)
    ensures NotRunning(k, ops, k.procs.topPid[t])
    ensures KernelRun(k, ops).procs.topPid[t] == k.procs.topPid[t]
    ensures Wait(Home(KernelRun(k, ops).procs), t) == Wait(Home(k.procs), t) - ScheduleCount(ops)
    decreases |ops|
  {
    if ops != [] {
      KernelStepAway(k, chains, ops[0], t);
      WaitsForItsTurn(Do(k, ops[0]), DoChains(k, chains, ops[0]), ops[1..], t);
    }
  }

  /** The tick that takes the processor from a process. */
  lemma LosesProcessor(k: Kernel, chains: Chains, frame: int)
    requires KernelInv(k, chains)
    ensures var k1 := Do(k, Schedule(frame));
      && KernelInv(k1, chains) && k1.kFrame[Current(k)] == frame
      && k1.procs.topPid[Home(k.procs)] == Current(k) && Wait(Home(k1.procs), Home(k.procs)) == 2
  {
    DoKeepsInv(k, chains, Schedule(frame));
  }

  /** A process that loses the processor at a tick has it back two ticks later, on the very stack
      frame it was interrupted with, whatever the other terminals do in between. */
  lemma ResumesWhereItStopped(k: Kernel, chains: Chains, frame: int, ops: seq<Op>, frame': int)
    requires KernelInv(k, chains) && KernelCanRun(Do(k, Schedule(frame)), ops)
    requires OnOwnTerminals(Do(k, Schedule(frame)), ops) && ScheduleCount(ops) == 1
    ensures var k' := ScheduleStep(KernelRun(Do(k, Schedule(frame)), ops), frame');
      k'.procs.currPid == Current(k) && |k'.kFrame| == MAX_PID && k'.kFrame[Current(k)] == frame
  {
    var p, t, k1 := Current(k), Home(k.procs), Do(k, Schedule(frame));
    LosesProcessor(k, chains, frame);
    WaitsForItsTurn(k1, chains, ops, t);
    FrameIsKept(k1, ops, p);
    var c2 := KernelRunKeepsInv(k1, chains, ops);
    var k2 := KernelRun(k1, ops);
    TopIsHome(k2.procs, c2, t);
    TurnComes(k2.procs, c2, t);
  }

  // -------------------------------------------------------------- execute as a call

  /** A process below the top of its terminal's chain is not the running one. */
  lemma BlockedIsNotRunning(s: Procs, chains: Chains, t: Term, i: nat)
    requires Inv(s, chains) && i + 1 < |chains[t]|
    ensures s.currPid != chains[t][i]
  {
    assert IsChain(s, t, chains[t]);
    CurrentIsLast(s, chains);
    assert s.pidToTerm[chains[t][i]] == t;
  }

  /** While the program it has started is alive, the caller of execute does not run. */
  lemma {:induction false} BlockedCallerWaits(
    k: Kernel, chains: Chains, ops: seq<Op>, t: Term, base: seq<int>, d: nat, caller: Pid)
    requires KernelInv(k, chains) && NestedRun(k, ops, t, d)
    requires |chains[t]| == |base| + d && chains[t][..|base|] == base
    requires |base| >= 2 && base[|base| - 2] == caller
    ensures NotRunning(k, ops, caller)
    decreases |ops|
  {
    if ops != [] {
      var d' := NestedStep(k, chains, ops, t, base, d);
      DoKeepsInv(k, chains, ops[0]);
      assert chains[t][|base| - 2] == caller;
      BlockedIsNotRunning(k.procs, chains, t, |base| - 2);
      BlockedCallerWaits(Do(k, ops[0]), DoChains(k, chains, ops[0]), ops[1..], t, base, d', caller);
    }
  }

  /** The started program's part of a run: well nested above it, until it has the processor. */
  ghost predicate RunsChild(k: Kernel, ops: seq<Op>, t: Term) {
    NestedRun(k, ops, t, 0) && Home(KernelRun(k, ops).procs) == t
  }

  /** A started program is on top of its caller. */
  lemma LaunchExtendsChain(k: Kernel, chains: Chains, prog: Program, frame: int)
    requires KernelInv(k, chains) && k.currTerm == Home(k.procs)
    requires Loads(k, prog) && Child(k.procs) < MAX_PID
    ensures KernelInv(Do(k, Exec(prog, frame)), DoChains(k, chains, Exec(prog, frame)))
    ensures var c, c' := chains[Home(k.procs)], DoChains(k, chains, Exec(prog, frame))[Home(k.procs)];
      c != [] && c[|c| - 1] == Current(k) && c' == c + [Child(k.procs)]
  {
    DoKeepsInv(k, chains, Exec(prog, frame));
    CurrentIsLast(k.procs, chains);
  }

  /** The child's halt goes back to the frame that called execute. */
  lemma ChildReturns(k: Kernel, chains: Chains, prog: Program, frame: int, ops: seq<Op>)
    requires KernelInv(k, chains) && k.currTerm == Home(k.procs)
    requires Loads(k, prog) && Child(k.procs) < MAX_PID
    requires RunsChild(Do(k, Exec(prog, frame)), ops, Home(k.procs))
    ensures var k' := KernelRun(Do(k, Exec(prog, frame)), ops);
      && Current(k') == Child(k.procs) && Allowed(k', Exit) && k'.parentFrame[Current(k')] == frame
      && k'.procs.parentPid[Current(k')] == Current(k)
  {
    var t, op, child := Home(k.procs), Exec(prog, frame), Child(k.procs);
    var k1, c1 := Do(k, op), DoChains(k, chains, op);
    DoKeepsInv(k, chains, op);
    ChildIsNew(k.procs, chains);
    KernelRunIsTableRun(k1, ops);
    Bracketing(k1.procs, c1, Events(k1, ops), t);
    assert c1[t] == chains[t] + [child];
    assert c1[t][..|c1[t]|] == c1[t] && child in c1[t];
    NestedHaltsSpareBase(k1, c1, ops, t, c1[t], 0, child);
    ReturnFrameIsKept(k1, ops, child);
  }

  lemma BelowTopWaits(k: Kernel, chains: Chains, ops: seq<Op>, t: Term, caller: Pid)
    requires KernelInv(k, chains) && NestedRun(k, ops, t, 0)
    requires |chains[t]| >= 2 && chains[t][|chains[t]| - 2] == caller
    ensures NotRunning(k, ops, caller)
  {
    assert chains[t][..|chains[t]|] == chains[t];
    BlockedCallerWaits(k, chains, ops, t, chains[t], 0, caller);
  }

  /** Meanwhile the caller waits. */
  lemma CallerWaits(k: Kernel, chains: Chains, prog: Program, frame: int, ops: seq<Op>)
    requires KernelInv(k, chains) && k.currTerm == Home(k.procs)
    requires Loads(k, prog) && Child(k.procs) < MAX_PID
    requires RunsChild(Do(k, Exec(prog, frame)), ops, Home(k.procs))
    ensures NotRunning(Do(k, Exec(prog, frame)), ops, Current(k))
  {
    LaunchExtendsChain(k, chains, prog, frame);
    var k1, c1 := Do(k, Exec(prog, frame)), DoChains(k, chains, Exec(prog, frame));
    BelowTopWaits(k1, c1, ops, Home(k.procs), Current(k));
  }

  /** So its open files stay what they were. */
  lemma CallerKeepsFiles(k: Kernel, prog: Program, frame: int, ops: seq<Op>)
    requires KernelShape(k) && !k.procs.freePid[Current(k)] && prog.Executable?
    requires KernelCanRun(Do(k, Exec(prog, frame)), ops)
    requires NotRunning(Do(k, Exec(prog, frame)), ops, Current(k))
    ensures OpenFiles(KernelRun(Do(k, Exec(prog, frame)), ops).files[Current(k)]) == OpenFiles(k.files[Current(k)])
  {
    NotRunningIsIdle(Do(k, Exec(prog, frame)), ops, Current(k));
    ProbeKeepsOpenFiles(k.files[Current(k)], prog.inode, prog.header);
    OpenFilesAreKept(Do(k, Exec(prog, frame)), ops, Current(k));
  }

  /** Execute is a call: whatever the program does, starts and waits for, and whatever the other
      terminals do, once it halts the caller runs again, in its own program memory, with its
      open files as they were; the program's pid is free and its descriptors are closed. */
  lemma ExecuteIsACall(k: Kernel, chains: Chains, prog: Program, frame: int, ops: seq<Op>)
    requires KernelInv(k, chains) && k.currTerm == Home(k.procs)
    requires Loads(k, prog) && Child(k.procs) < MAX_PID
    requires RunsChild(Do(k, Exec(prog, frame)), ops, Home(k.procs))
    ensures var returning := KernelRun(Do(k, Exec(prog, frame)), ops);
      && Allowed(returning, Exit)
      && var k' := Do(returning, Exit);
         && KernelShape(k') && Current(k') == Current(k)
         && OpenFiles(k'.files[Current(k)]) == OpenFiles(k.files[Current(k)])
         && k'.procs.freePid[Child(k.procs)] && Clean(k'.files[Child(k.procs)])
         && SameProgram(k, k')
  {
    var k1, c1 := Do(k, Exec(prog, frame)), DoChains(k, chains, Exec(prog, frame));
    DoKeepsInv(k, chains, Exec(prog, frame));
    ChildReturns(k, chains, prog, frame, ops);
    CallerWaits(k, chains, prog, frame, ops);
    CallerKeepsFiles(k, prog, frame, ops);
    var c2 := KernelRunKeepsInv(k1, c1, ops);
    var k2 := KernelRun(k1, ops);
    DoKeepsInv(k2, c2, Exit);
    SameProgramMemory(k, Do(k2, Exit));
  }

  // ------------------------------------------- a run on other terminals that goes astray

  /** A kernel at work, with no file open. */
  ghost predicate Works(k: Kernel, procs: Procs, term: Term) {
    KernelShape(k) && MemoryInv(k) && FilesInv(k) && k.procs == procs && k.currTerm == term
    && forall p: Pid :: Clean(k.files[p])
  }

  lemma StartProgram(k: Kernel, procs: Procs, term: Term) returns (op: Op)
    requires Works(k, procs, term) && Child(procs) < MAX_PID
    ensures op.Exec? && Allowed(k, op) && Works(Do(k, op), Step(procs, Execute(term, true)), term)
  {
    op := Exec(Executable(0, 0), 0);
    ProbeKeepsOpenFiles(k.files[Current(k)], 0, 0);
    DoKeepsMemory(k, op);
    DoKeepsFiles(k, op);
    DoRefinesTable(k, op);
  }

  lemma PlainStep(k: Kernel, procs: Procs, term: Term, op: Op)
    requires Works(k, procs, term) && Allowed(k, op) && (op.Exit? || op.Schedule? || op.SwitchTo?)
    ensures KernelShape(Do(k, op)) && Works(Do(k, op), Do(k, op).procs, Do(k, op).currTerm)
    ensures Do(k, op).procs == if op.SwitchTo? then procs else Step(procs, if op.Exit? then Halt else Tick)
    ensures Do(k, op).currTerm == if op.SwitchTo? then op.n else term
  {
    DoKeepsMemory(k, op);
    DoKeepsFiles(k, op);
    DoRefinesTable(k, op);
  }

  lemma {:induction false} RunLonger(k: Kernel, ops: seq<Op>, op: Op)
    requires KernelCanRun(k, ops) && Allowed(KernelRun(k, ops), op) && KernelShape(Do(KernelRun(k, ops), op))
    ensures KernelCanRun(k, ops + [op]) && KernelRun(k, ops + [op]) == Do(KernelRun(k, ops), op)
    decreases |ops|
  {
    if ops == [] {
      assert [] + [op] == [op] && [op][1..] == [];
    } else {
      assert (ops + [op])[1..] == ops[1..] + [op];
      RunLonger(Do(k, ops[0]), ops[1..], op);
    }
  }

  /** The run `ops` from `k` leads to a working kernel with these tables. */
  ghost predicate Leads(k: Kernel, ops: seq<Op>, procs: Procs, term: Term) {
    KernelCanRun(k, ops) && Works(KernelRun(k, ops), procs, term)
  }

  lemma ThenStart(k: Kernel, ops: seq<Op>, procs: Procs, term: Term, procs': Procs) returns (ops': seq<Op>)
    requires Leads(k, ops, procs, term) && Child(procs) < MAX_PID && procs' == Step(procs, Execute(term, true))
    ensures Leads(k, ops', procs', term)
  {
    var op := StartProgram(KernelRun(k, ops), procs, term);
    RunLonger(k, ops, op);
    ops' := ops + [op];
  }

  lemma ThenSwitch(k: Kernel, ops: seq<Op>, procs: Procs, term: Term, n: Term) returns (ops': seq<Op>)
    requires Leads(k, ops, procs, term)
    ensures Leads(k, ops', procs, n)
  {
    PlainStep(KernelRun(k, ops), procs, term, SwitchTo(n));
    RunLonger(k, ops, SwitchTo(n));
    ops' := ops + [SwitchTo(n)];
  }

  lemma ThenTickAndExit(k: Kernel, ops: seq<Op>, procs: Procs, term: Term, procs': Procs) returns (ops': seq<Op>)
    requires Leads(k, ops, procs, term) && Step(procs, Tick).currPid >= MAX_TERM
    requires HasParent(Step(procs, Tick), Halt) && procs' == Step(Step(procs, Tick), Halt)
    ensures Leads(k, ops', procs', term) && Follows(KernelRun(k, ops'))
  {
    var k1 := KernelRun(k, ops);
    PlainStep(k1, procs, term, Schedule(0));
    RunLonger(k, ops, Schedule(0));
    var k2 := Do(k1, Schedule(0));
    PlainStep(k2, k2.procs, term, Exit);
    StepFollows(k2, Exit);
    RunLonger(k, ops + [Schedule(0)], Exit);
    ops' := ops + [Schedule(0)] + [Exit];
  }

  /** Shell 2 has started program 3 on terminal 0, and that has started program 4 on terminal 1. */
  const TWO_PROGRAMS: Procs :=
    Procs([false, false, false, false, false, true], [-1, 0, 1, 2, 3, 0], [0, 1, 2, 0, 1, 0], [3, 4, 2], 4, 2)

  /** Program 3 has halted before program 4, which then returned to it. */
  const FREED_RUNS: Procs :=
    Procs([false, false, false, true, true, true], [-1, 0, 1, 2, 3, 0], [0, 1, 2, 0, 1, 0], [2, 3, 2], 3, 4)

  lemma TwoPrograms()
    ensures Child(BOOTED) < MAX_PID
    ensures var procs := Step(BOOTED, Execute(0, true));
      Shape(procs) && Child(procs) < MAX_PID && Step(procs, Execute(1, true)) == TWO_PROGRAMS
  {
  }

  const HALFWAY: Procs :=
    Procs([false, false, false, true, false, true], [-1, 0, 1, 2, 3, 0], [0, 1, 2, 0, 1, 0], [2, 4, 2], 2, 3)

  lemma ThirdHalts()
    ensures Shape(TWO_PROGRAMS) && Step(TWO_PROGRAMS, Tick).currPid == 3 && HasParent(Step(TWO_PROGRAMS, Tick), Halt)
    ensures Step(Step(TWO_PROGRAMS, Tick), Halt) == HALFWAY
  {
  }

  lemma FourthHalts()
    ensures Shape(HALFWAY) && Step(HALFWAY, Tick).currPid == 4 && HasParent(Step(HALFWAY, Tick), Halt)
    ensures Step(Step(HALFWAY, Tick), Halt) == FREED_RUNS
  {
  }

  /** The booted kernel reaches, by programs started on other terminals than their own, a state in
      which a process runs although its pid is free. */
  lemma FreedProcessRuns(base0: int, base1: int, shell: Program, frame: int) returns (ops: seq<Op>)
    requires base0 % Paging.FOUR_KB == 0 && base1 % Paging.FOUR_KB == 0 && base0 != base1 && shell.Executable?
    ensures var k := Booted(base0, base1, shell, frame);
      Leads(k, ops, FREED_RUNS, 1) && Follows(KernelRun(k, ops))
  {
    var k := Booted(base0, base1, shell, frame);
    BootedMemory(base0, base1, shell, frame);
    TwoPrograms();
    assert Leads(k, [], BOOTED, 2);
    ops := ThenSwitch(k, [], BOOTED, 2, 0);
    ops := ThenStart(k, ops, BOOTED, 0, Step(BOOTED, Execute(0, true)));
    ops := ThenSwitch(k, ops, Step(BOOTED, Execute(0, true)), 0, 1);
    ops := ThenStart(k, ops, Step(BOOTED, Execute(0, true)), 1, TWO_PROGRAMS);
    ThirdHalts();
    ops := ThenTickAndExit(k, ops, TWO_PROGRAMS, 1, HALFWAY);
    FourthHalts();
    ops := ThenTickAndExit(k, ops, HALFWAY, 1, FREED_RUNS);
  }

  lemma StraysFromHere(k: Kernel)
    requires Works(k, FREED_RUNS, 1) && Follows(k)
    ensures k.procs.freePid[Current(k)] && Strays(k, Exec(NotFound, 0))
    ensures KernelShape(Do(k, Exec(NotFound, 0))) && !Follows(Do(k, Exec(NotFound, 0)))
  {
    DoKeepsMemory(k, Exec(NotFound, 0));
    StepFollows(k, Exec(NotFound, 0));
  }

  /** There, its next failing execute leaves the vidmap page on another terminal's screen. */
  lemma VidmapCanStray(base0: int, base1: int, shell: Program, frame: int) returns (ops: seq<Op>)
    requires base0 % Paging.FOUR_KB == 0 && base1 % Paging.FOUR_KB == 0 && base0 != base1 && shell.Executable?
    ensures KernelCanRun(Booted(base0, base1, shell, frame), ops)
    ensures var k := KernelRun(Booted(base0, base1, shell, frame), ops);
      && k.procs.freePid[Current(k)] && Follows(k)
      && Strays(k, Exec(NotFound, 0)) && KernelShape(Do(k, Exec(NotFound, 0))) && !Follows(Do(k, Exec(NotFound, 0)))
  {
    ops := FreedProcessRuns(base0, base1, shell, frame);
    StraysFromHere(KernelRun(Booted(base0, base1, shell, frame), ops));
  }

  lemma LittersFromHere(k: Kernel, inode: nat, prog: Program)
    requires Works(k, FREED_RUNS, 1) && prog.Executable?
    ensures var open := Files(OpenOp(Regular, inode));
      && Litters(k, open) && KernelShape(Do(k, open)) && !FilesInv(Do(k, open))
      && Loads(Do(k, open), prog) && StartsWithFile(Do(k, open), prog, inode)
  {
    var k' := Do(k, Files(OpenOp(Regular, inode)));
    DoKeepsFiles(k, Files(OpenOp(Regular, inode)));
    var table := k'.files[Current(k)];
    assert !table[3].open;
    ProbeKeepsOpenFiles(table, prog.inode, prog.header);
    assert OpenFiles(table)[FILE_START_IDX] == OpenFile(Regular, inode, 0);
  }

  /** The program started next has a file open that it never opened. */
  ghost predicate StartsWithFile(k: Kernel, prog: Program, inode: nat)
    requires KernelShape(k) && Loads(k, prog)
  {
    && Child(k.procs) < MAX_PID && KernelShape(ExecStep(k, prog, 0))
    && var files := OpenFiles(ExecStep(k, prog, 0).files[Child(k.procs)]);
       FILE_START_IDX in files && files[FILE_START_IDX] == OpenFile(Regular, inode, 0)
  }

  /** And a file it opens there is left open in the free pid, for the next program to start with. */
  lemma FreePidCanLitter(base0: int, base1: int, shell: Program, frame: int, inode: nat) returns (ops: seq<Op>)
    requires base0 % Paging.FOUR_KB == 0 && base1 % Paging.FOUR_KB == 0 && base0 != base1 && shell.Executable?
    ensures KernelCanRun(Booted(base0, base1, shell, frame), ops)
    ensures var k, open := KernelRun(Booted(base0, base1, shell, frame), ops), Files(OpenOp(Regular, inode));
      && FilesInv(k) && Litters(k, open) && KernelShape(Do(k, open)) && !FilesInv(Do(k, open))
      && Loads(Do(k, open), shell) && StartsWithFile(Do(k, open), shell, inode)
  {
    ops := FreedProcessRuns(base0, base1, shell, frame);
    LittersFromHere(KernelRun(Booted(base0, base1, shell, frame), ops), inode, shell);
  }
}
