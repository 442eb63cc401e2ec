/** The process table and the scheduler as a step machine (student-distrib/system_execute.c,
    student-distrib/schedule.c): pids, parents, terminals, and who runs next. */
module ProcessTable {
  import T = Terminals

  const MAX_PID := 6
  const MAX_TERM := 3

  type Pid = p: int | 0 <= p < MAX_PID
  type Term = T.Term

  datatype Procs = Procs(
    freePid: seq<bool>, parentPid: seq<int>, pidToTerm: seq<int>, topPid: seq<int>,
    currPid: int, scheduleCounter: nat)

  /** Execute as the table sees it: `term` is the displayed terminal, `loads` whether the
      program was found and is executable. */
  datatype Event = Execute(term: Term, loads: bool) | Halt | Tick

  predicate Shape(s: Procs) {
    && |s.freePid| == |s.parentPid| == |s.pidToTerm| == MAX_PID && |s.topPid| == MAX_TERM
    && 0 <= s.currPid < MAX_PID
    && (forall p: Pid :: 0 <= s.pidToTerm[p] < MAX_TERM && -1 <= s.parentPid[p] < MAX_PID)
    && (forall t: Term :: 0 <= s.topPid[t] < MAX_PID)
  }

  /** find_free_process: the least free pid at or after `i`, or MAX_PID. */
  function FindFree(free: seq<bool>, i: nat): (p: nat)
    requires |free| == MAX_PID && i <= MAX_PID
    ensures i <= p <= MAX_PID && (p < MAX_PID ==> free[p])
    ensures forall q :: i <= q < p ==> !free[q]
    decreases MAX_PID - i
  {
    if i == MAX_PID || free[i] then i else FindFree(free, i + 1)
  }

  function Child(s: Procs): nat
    requires Shape(s)
  {
    FindFree(s.freePid, 0)
  }

  predicate Succeeds(s: Procs, e: Event)
    requires Shape(s)
  {
    e.Execute? && e.loads && Child(s) < MAX_PID
  }

  /** The terminal of the running process. */
  function Home(s: Procs): Term
    requires Shape(s)
  {
    s.pidToTerm[s.currPid]
  }

  /** Only a process with a parent process can halt. */
  predicate HasParent(s: Procs, e: Event)
    requires Shape(s)
  {
    e.Halt? ==> s.parentPid[s.currPid] != -1
  }

  /** system_execute, system_halt of a process with a parent, and schedule. */
  function Step(s: Procs, e: Event): Procs
    requires Shape(s) && HasParent(s, e)
  {
    match e
    case Execute(term, loads) =>
      var child := Child(s);
      if child == MAX_PID then s
      else
        var homed := s.(pidToTerm := s.pidToTerm[child := term]);
        if !loads then homed
        else homed.(
          topPid := s.topPid[term := child], parentPid := s.parentPid[child := s.currPid],
          currPid := child, freePid := s.freePid[child := false])
    case Halt =>
      var parent := s.parentPid[s.currPid];
      s.(freePid := s.freePid[s.currPid := true], topPid := s.topPid[Home(s) := parent], currPid := parent)
    case Tick =>
      s.(scheduleCounter := s.scheduleCounter + 1, currPid := s.topPid[(s.scheduleCounter + 1) % 3])
  }

  /** Base shells do not halt, and a process starts a program only while its own terminal is displayed. */
  predicate Enabled(s: Procs, e: Event)
    requires Shape(s)
  {
    match e
    case Execute(term, _) => Succeeds(s, e) ==> term == Home(s)
    case Halt => s.currPid >= MAX_TERM
    case Tick => true
  }

  // ------------------------------------------------------------------- the invariant

  /** For each terminal, its live processes from the base shell to the running end. */
  type Chains = c: seq<seq<int>> | |c| == MAX_TERM witness [[0], [1], [2]]

  /** `chain` is the acyclic parent chain of terminal `t`, all of it live. */
  ghost predicate IsChain(s: Procs, t: Term, chain: seq<int>)
    requires Shape(s)
  {
    && chain != [] && chain[0] == t && chain[|chain| - 1] == s.topPid[t]
    && (forall i, j :: 0 <= i < j < |chain| ==> chain[i] != chain[j])
    && (forall i :: 0 <= i < |chain| ==> 0 <= chain[i] < MAX_PID && !s.freePid[chain[i]] && s.pidToTerm[chain[i]] == t)
    && (forall i {:trigger s.parentPid[chain[i]]} ::
          0 < i < |chain| ==> MAX_TERM <= chain[i] && s.parentPid[chain[i]] == chain[i - 1])
  }

  ghost predicate AllChains(s: Procs, chains: Chains)
    requires Shape(s)
  {
    forall t: Term :: IsChain(s, t, chains[t])
  }

  ghost predicate Live(s: Procs, p: Pid)
    requires Shape(s)
  {
    !s.freePid[p]
  }

  /** Every live pid is in its terminal's chain. */
  ghost predicate Complete(s: Procs, chains: Chains)
    requires Shape(s)
  {
    forall p: Pid {:trigger Live(s, p)} :: Live(s, p) ==> p in chains[s.pidToTerm[p]]
  }

  /** The chains hold exactly the live pids, and the running process ends its chain. */
  ghost predicate Inv(s: Procs, chains: Chains) {
    && Shape(s) && AllChains(s, chains) && Complete(s, chains)
    && !s.freePid[s.currPid] && s.currPid == s.topPid[Home(s)]
    && Home(s) == s.scheduleCounter % 3
  }

  /** A successful execute pushes onto the running process's chain, a halt pops it. */
  function StepChains(s: Procs, chains: Chains, e: Event): Chains
    requires Shape(s)
  {
    var t := Home(s);
    if Succeeds(s, e) then chains[t := chains[t] + [Child(s)]]
    else if e.Halt? && chains[t] != [] then chains[t := chains[t][..|chains[t]| - 1]]
    else chains
  }

  lemma CurrentIsLast(s: Procs, chains: Chains)
    requires Inv(s, chains)
    ensures var c := chains[Home(s)];
      && c != [] && c[|c| - 1] == s.currPid
      && (s.currPid >= MAX_TERM ==> |c| > 1 && s.parentPid[s.currPid] == c[|c| - 2])
      && (s.currPid < MAX_TERM ==> |c| == 1)
  {
    var c := chains[Home(s)];
    assert IsChain(s, Home(s), c);
  }

  lemma BaseShellsLive(s: Procs, chains: Chains, t: Term)
    requires Inv(s, chains)
    ensures !s.freePid[t] && s.pidToTerm[t] == t
  {
    assert IsChain(s, t, chains[t]);
    assert chains[t][0] == t;
  }

  lemma ChildIsNew(s: Procs, chains: Chains)
    requires Inv(s, chains) && Child(s) < MAX_PID
    ensures Child(s) >= MAX_TERM && forall t: Term :: Child(s) !in chains[t]
  {
    BaseShellsLive(s, chains, 0);
    BaseShellsLive(s, chains, 1);
    BaseShellsLive(s, chains, 2);
    forall t: Term
      ensures Child(s) !in chains[t]
    {
      assert IsChain(s, t, chains[t]);
    }
  }

  /** A chain only looks at its own pids. */
  lemma ChainFrame(s: Procs, s': Procs, t: Term, chain: seq<int>)
    requires Shape(s) && Shape(s') && IsChain(s, t, chain) && s'.topPid[t] == s.topPid[t]
    requires forall p: Pid :: p in chain ==>
      s'.freePid[p] == s.freePid[p] && s'.pidToTerm[p] == s.pidToTerm[p] && s'.parentPid[p] == s.parentPid[p]
    ensures IsChain(s', t, chain)
  {
    forall i | 0 <= i < |chain|
      ensures 0 <= chain[i] < MAX_PID && !s'.freePid[chain[i]] && s'.pidToTerm[chain[i]] == t
      ensures i > 0 ==> MAX_TERM <= chain[i] && s'.parentPid[chain[i]] == chain[i - 1]
    {
      var p: Pid := chain[i];
      assert p in chain;
    }
  }

  lemma DistinctLonger(c: seq<int>, p: int)
    requires p !in c && forall i, j :: 0 <= i < j < |c| ==> c[i] != c[j]
    ensures forall i, j :: 0 <= i < j < |c + [p]| ==> (c + [p])[i] != (c + [p])[j]
  {
    var longer := c + [p];
    forall i, j | 0 <= i < j < |longer|
      ensures longer[i] != longer[j]
    {
      if j == |c| {
        assert c[i] in c;
      }
    }
  }

  lemma LongerChain(s: Procs, s': Procs, t: Term, c: seq<int>, child: Pid)
    requires Shape(s) && Shape(s') && IsChain(s, t, c) && child >= MAX_TERM && child !in c
    requires s'.topPid[t] == child && s'.parentPid == s.parentPid[child := c[|c| - 1]]
    requires s'.freePid == s.freePid[child := false] && s'.pidToTerm == s.pidToTerm[child := t]
    ensures IsChain(s', t, c + [child])
  {
    DistinctLonger(c, child);
    forall i | 0 <= i < |c|
      ensures c[i] != child
    {
      assert c[i] in c;
    }
  }

  lemma ExecuteExtendsChain(s: Procs, chains: Chains, e: Event)
    requires Inv(s, chains) && Enabled(s, e) && Succeeds(s, e)
    ensures Shape(Step(s, e)) && IsChain(Step(s, e), Home(s), chains[Home(s)] + [Child(s)])
  {
    assert IsChain(s, Home(s), chains[Home(s)]);
    ChildIsNew(s, chains);
    CurrentIsLast(s, chains);
    LongerChain(s, Step(s, e), Home(s), chains[Home(s)], Child(s));
  }

  lemma ExecuteKeepsOtherChain(s: Procs, chains: Chains, e: Event, t: Term)
    requires Inv(s, chains) && Enabled(s, e) && e.Execute? && Child(s) < MAX_PID
    requires Succeeds(s, e) ==> t != Home(s)
    ensures Shape(Step(s, e)) && IsChain(Step(s, e), t, chains[t])
  {
    ChildIsNew(s, chains);
    assert Child(s) !in chains[t];
    ChainFrame(s, Step(s, e), t, chains[t]);
  }

  lemma ExecuteKeepsChains(s: Procs, chains: Chains, e: Event)
    requires Inv(s, chains) && Enabled(s, e) && e.Execute? && Child(s) < MAX_PID
    ensures Shape(Step(s, e)) && AllChains(Step(s, e), StepChains(s, chains, e))
  {
    forall t: Term
      ensures Shape(Step(s, e)) && IsChain(Step(s, e), t, StepChains(s, chains, e)[t])
    {
      if Succeeds(s, e) && t == Home(s) {
        ExecuteExtendsChain(s, chains, e);
      } else {
        ExecuteKeepsOtherChain(s, chains, e, t);
      }
    }
  }

  lemma ExecuteKeepsComplete(s: Procs, chains: Chains, e: Event)
    requires Inv(s, chains) && Enabled(s, e) && e.Execute? && Child(s) < MAX_PID
    requires Shape(Step(s, e))
    ensures Complete(Step(s, e), StepChains(s, chains, e))
  {
    var home, c := Home(s), chains[Home(s)];
    var longer := c + [Child(s)];
    assert longer[|c|] == Child(s);
    forall p: Pid | Live(Step(s, e), p)
      ensures p in StepChains(s, chains, e)[Step(s, e).pidToTerm[p]]
    {
      assert p == Child(s) || Live(s, p);
    }
  }

  lemma ExecuteKeepsInv(s: Procs, chains: Chains, e: Event)
    requires Inv(s, chains) && Enabled(s, e) && e.Execute?
    ensures Inv(Step(s, e), StepChains(s, chains, e))
  {
    if Child(s) < MAX_PID {
      ExecuteKeepsChains(s, chains, e);
      ExecuteKeepsComplete(s, chains, e);
    }
  }

  lemma HaltKeepsShape(s: Procs, chains: Chains) returns (parent: Pid)
    requires Inv(s, chains) && Enabled(s, Halt)
    ensures |chains[Home(s)]| > 1 && parent == s.parentPid[s.currPid] == chains[Home(s)][|chains[Home(s)]| - 2]
    ensures s.currPid == chains[Home(s)][|chains[Home(s)]| - 1]
    ensures HasParent(s, Halt) && Shape(Step(s, Halt))
    ensures !s.freePid[parent] && s.pidToTerm[parent] == Home(s) && parent != s.currPid
  {
    CurrentIsLast(s, chains);
    var c := chains[Home(s)];
    assert IsChain(s, Home(s), c);
    parent := c[|c| - 2];
  }

  lemma HaltKeepsChains(s: Procs, chains: Chains)
    requires Inv(s, chains) && Enabled(s, Halt) && HasParent(s, Halt) && Shape(Step(s, Halt))
    ensures AllChains(Step(s, Halt), StepChains(s, chains, Halt))
  {
    var parent := HaltKeepsShape(s, chains);
    forall t: Term
      ensures IsChain(Step(s, Halt), t, StepChains(s, chains, Halt)[t])
    {
      assert IsChain(s, t, chains[t]);
      if t == Home(s) {
        ShorterChain(s, Step(s, Halt), t, chains[t]);
      } else {
        ChainFrame(s, Step(s, Halt), t, chains[t]);
      }
    }
  }

  lemma InShorter(c: seq<int>, p: int)
    requires p in c && p != c[|c| - 1]
    ensures p in c[..|c| - 1]
  {
    var i :| 0 <= i < |c| && c[i] == p;
    assert c[..|c| - 1][i] == p;
  }

  lemma HaltKeepsComplete(s: Procs, chains: Chains)
    requires Inv(s, chains) && Enabled(s, Halt) && HasParent(s, Halt) && Shape(Step(s, Halt))
    ensures Complete(Step(s, Halt), StepChains(s, chains, Halt))
  {
    var parent := HaltKeepsShape(s, chains);
    var c := chains[Home(s)];
    forall p: Pid | Live(Step(s, Halt), p)
      ensures p in StepChains(s, chains, Halt)[s.pidToTerm[p]]
    {
      assert Live(s, p) && p != s.currPid;
      if p in c {
        InShorter(c, p);
      }
    }
  }

  lemma HaltKeepsInv(s: Procs, chains: Chains)
    requires Inv(s, chains) && Enabled(s, Halt)
    ensures HasParent(s, Halt) && Inv(Step(s, Halt), StepChains(s, chains, Halt))
  {
    var parent := HaltKeepsShape(s, chains);
    HaltKeepsChains(s, chains);
    HaltKeepsComplete(s, chains);
  }

  lemma ShorterChain(s: Procs, s': Procs, t: Term, c: seq<int>)
    requires Shape(s) && Shape(s') && IsChain(s, t, c) && |c| > 1
    requires s'.topPid[t] == c[|c| - 2] && s'.pidToTerm == s.pidToTerm && s'.parentPid == s.parentPid
    requires s'.freePid == s.freePid[c[|c| - 1] := true]
    ensures IsChain(s', t, c[..|c| - 1])
  {
  }

  lemma TickKeepsChains(s: Procs, chains: Chains)
    requires Inv(s, chains)
    ensures Shape(Step(s, Tick)) && AllChains(Step(s, Tick), chains)
  {
    forall t: Term
      ensures IsChain(Step(s, Tick), t, chains[t])
    {
      assert IsChain(s, t, chains[t]);
      ChainFrame(s, Step(s, Tick), t, chains[t]);
    }
  }

  lemma TickKeepsComplete(s: Procs, chains: Chains)
    requires Inv(s, chains) && Shape(Step(s, Tick))
    ensures Complete(Step(s, Tick), chains)
  {
    forall p: Pid | Live(Step(s, Tick), p)
      ensures p in chains[s.pidToTerm[p]]
    {
      assert Live(s, p);
    }
  }

  /** A tick gives the turn to the live top process of the next terminal. */
  lemma TickTakesTurn(s: Procs, chains: Chains)
    requires Inv(s, chains)
    ensures var s' := Step(s, Tick);
      && Home(s') == s'.scheduleCounter % 3 && s'.currPid == s'.topPid[Home(s')] && !s'.freePid[s'.currPid]
  {
    var t: Term := (s.scheduleCounter + 1) % 3;
    var c := chains[t];
    assert IsChain(s, t, c);
    assert c[|c| - 1] == s.topPid[t] && !s.freePid[c[|c| - 1]] && s.pidToTerm[c[|c| - 1]] == t;
  }

  lemma TickKeepsInv(s: Procs, chains: Chains)
    requires Inv(s, chains)
    ensures Inv(Step(s, Tick), chains)
  {
    TickKeepsChains(s, chains);
    TickKeepsComplete(s, chains);
    TickTakesTurn(s, chains);
  }

  /** Every enabled step keeps the chains acyclic, disjoint and complete. */
  lemma StepKeepsInv(s: Procs, chains: Chains, e: Event)
    requires Inv(s, chains) && Enabled(s, e)
    ensures HasParent(s, e) && Inv(Step(s, e), StepChains(s, chains, e))
  {
    match e
    case Execute(_, _) => ExecuteKeepsInv(s, chains, e);
    case Halt => HaltKeepsInv(s, chains);
    case Tick => TickKeepsInv(s, chains);
  }

  // ----------------------------------------------------------------------------- runs

  /** A run in which every step is enabled. */
  ghost predicate CanRun(s: Procs, es: seq<Event>)
    decreases |es|
  {
    && Shape(s)
    && (es == [] || (Enabled(s, es[0]) && HasParent(s, es[0]) && CanRun(Step(s, es[0]), es[1..])))
  }

  ghost function Run(s: Procs, es: seq<Event>): (r: Procs)
    requires CanRun(s, es)
    ensures Shape(r)
    decreases |es|
  {
    if es == [] then s else Run(Step(s, es[0]), es[1..])
  }

  /** The chains at the end of a run. */
  ghost function RunChains(s: Procs, chains: Chains, es: seq<Event>): Chains
    requires CanRun(s, es)
    decreases |es|
  {
    if es == [] then chains else RunChains(Step(s, es[0]), StepChains(s, chains, es[0]), es[1..])
  }

  /** Over every run, the chains stay acyclic, disjoint and complete. */
  lemma {:induction false} RunKeepsInv(s: Procs, chains: Chains, es: seq<Event>)
    requires Inv(s, chains) && CanRun(s, es)
    ensures Inv(Run(s, es), RunChains(s, chains, es))
    decreases |es|
  {
    if es != [] {
      StepKeepsInv(s, chains, es[0]);
      RunKeepsInv(Step(s, es[0]), StepChains(s, chains, es[0]), es[1..]);
    }
  }

  // ---------------------------------------------------- who runs: leaves, in round robin

  /** The running process is not the parent of any live process from pid 3 on, so a process blocked
      in execute never runs. Base shells 1 and 2 do have a running parent. */
  lemma RunningIsLeaf(s: Procs, chains: Chains, p: Pid)
    requires Inv(s, chains) && p >= MAX_TERM && !s.freePid[p]
    ensures s.parentPid[p] != s.currPid
  {
    assert Live(s, p);
    var t: Term := s.pidToTerm[p];
    var c := chains[t];
    assert IsChain(s, t, c);
    var i :| 0 <= i < |c| && c[i] == p;
    assert i > 0 && s.parentPid[c[i]] == c[i - 1] && s.pidToTerm[c[i - 1]] == t;
    if t == Home(s) {
      CurrentIsLast(s, chains);
    }
  }

  ghost function Ticks(es: seq<Event>): nat {
    if es == [] then 0 else (if es[0].Tick? then 1 else 0) + Ticks(es[1..])
  }

  lemma {:induction false} TicksCount(s: Procs, es: seq<Event>)
    requires CanRun(s, es)
    ensures Run(s, es).scheduleCounter == s.scheduleCounter + Ticks(es)
    decreases |es|
  {
    if es != [] {
      TicksCount(Step(s, es[0]), es[1..]);
    }
  }

  /** The running terminal is the tick count modulo three, whatever else happens in between;
      so any three consecutive ticks give every terminal one turn. */
  lemma RoundRobin(s: Procs, chains: Chains, es: seq<Event>)
    requires Inv(s, chains) && CanRun(s, es)
    ensures Home(Run(s, es)) == (Home(s) + Ticks(es)) % 3
  {
    TurnAfterRun(s, chains, es);
    TicksCount(s, es);
    TurnAfter(s.scheduleCounter, Ticks(es), Run(s, es).scheduleCounter);
  }

  lemma TurnAfterRun(s: Procs, chains: Chains, es: seq<Event>)
    requires Inv(s, chains) && CanRun(s, es)
    ensures Home(s) == s.scheduleCounter % 3
    ensures Home(Run(s, es)) == Run(s, es).scheduleCounter % 3
  {
    RunKeepsInv(s, chains, es);
  }

  lemma TurnAfter(before: nat, n: nat, after: nat)
    requires after == before + n
    ensures after % 3 == (before % 3 + n) % 3
  {
  }

  /** How many ticks terminal `t` has to wait while terminal `h` runs. */
  function Wait(h: Term, t: Term): nat {
    if h <= t then t - h else t - h + MAX_TERM
  }

  lemma TopIsHome(s: Procs, chains: Chains, t: Term)
    requires Inv(s, chains)
    ensures s.pidToTerm[s.topPid[t]] == t && !s.freePid[s.topPid[t]]
  {
    var c := chains[t];
    assert IsChain(s, t, c);
    assert s.pidToTerm[c[|c| - 1]] == t && !s.freePid[c[|c| - 1]];
  }

  lemma NextWait(h: Term, t: Term)
    requires h != t
    ensures Wait((h + 1) % 3, t) == Wait(h, t) - 1
  {
  }

  /** The child of a successful execute is on its caller's terminal. */
  lemma ExecuteStaysHome(s: Procs, chains: Chains, e: Event)
    requires Inv(s, chains) && Enabled(s, e) && e.Execute? && Shape(Step(s, e))
    ensures Home(Step(s, e)) == Home(s)
    ensures forall t: Term :: t != Home(s) ==> Step(s, e).topPid[t] == s.topPid[t]
  {
    if Child(s) < MAX_PID {
      ChildIsNew(s, chains);
      CurrentIsLast(s, chains);
    }
  }

  /** A step while another terminal runs leaves the top process of terminal `t`, which is not the
      running one, and only a tick shortens its wait, by one. */
  lemma StepAway(s: Procs, chains: Chains, e: Event, t: Term)
    requires Inv(s, chains) && Enabled(s, e) && HasParent(s, e) && Home(s) != t && Shape(Step(s, e))
    ensures s.currPid != s.topPid[t] && Step(s, e).topPid[t] == s.topPid[t]
    ensures Wait(Home(Step(s, e)), t) == Wait(Home(s), t) - (if e.Tick? then 1 else 0)
  {
    TopIsHome(s, chains, t);
    match e
    case Execute(_, _) => ExecuteStaysHome(s, chains, e);
    case Halt =>
      var parent := HaltKeepsShape(s, chains);
    case Tick =>
      TickTakesTurn(s, chains);
      NextWait(Home(s), t);
  }

  /** The tick that ends the wait gives the processor to the top process. */
  lemma TurnComes(s: Procs, chains: Chains, t: Term)
    requires Inv(s, chains) && Wait(Home(s), t) == 1
    ensures Step(s, Tick).currPid == s.topPid[t]
  {
  }

  // ----------------------------------------------------------------------- bracketing

  /** Seen from terminal `t`, `d` executes deep: every halt there ends an execute of the run,
      and the run ends at depth 0. Events of other terminals do not count. */
  ghost predicate WellNested(s: Procs, es: seq<Event>, t: Term, d: nat)
    requires CanRun(s, es)
    decreases |es|
  {
    if es == [] then d == 0
    else if Home(s) == t && Succeeds(s, es[0]) then WellNested(Step(s, es[0]), es[1..], t, d + 1)
    else if Home(s) == t && es[0].Halt? then d > 0 && WellNested(Step(s, es[0]), es[1..], t, d - 1)
    else WellNested(Step(s, es[0]), es[1..], t, d)
  }

  lemma {:induction false} NestingRestoresChain(
    s: Procs, chains: Chains, es: seq<Event>, t: Term, base: seq<int>, d: nat)
    requires CanRun(s, es) && WellNested(s, es, t, d)
    requires |chains[t]| == |base| + d && chains[t][..|base|] == base
    ensures RunChains(s, chains, es)[t] == base
    decreases |es|
  {
    if es != [] {
      var next := StepChains(s, chains, es[0]);
      var d' := if Home(s) == t && Succeeds(s, es[0]) then d + 1
                else if Home(s) == t && es[0].Halt? then d - 1 else d;
      assert next[t][..|base|] == base;
      NestingRestoresChain(Step(s, es[0]), next, es[1..], t, base, d');
    }
  }

  lemma SameChainSameProcesses(s: Procs, chains: Chains, s': Procs, chains': Chains, t: Term)
    requires Inv(s, chains) && Inv(s', chains') && chains'[t] == chains[t]
    ensures s'.topPid[t] == s.topPid[t]
    ensures forall p: Pid :: p in chains[t] <==> !s'.freePid[p] && s'.pidToTerm[p] == t
    ensures forall p: Pid :: p in chains[t] && p >= MAX_TERM ==> s'.parentPid[p] == s.parentPid[p]
  {
    var c := chains[t];
    assert IsChain(s, t, c) && IsChain(s', t, c);
    forall p: Pid | p in c && p >= MAX_TERM
      ensures s'.parentPid[p] == s.parentPid[p]
    {
      var i :| 0 <= i < |c| && c[i] == p;
      assert s'.parentPid[c[i]] == c[i - 1] == s.parentPid[c[i]];
    }
    forall p: Pid
      ensures p in c <==> !s'.freePid[p] && s'.pidToTerm[p] == t
    {
      assert Live(s', p) <==> !s'.freePid[p];
    }
  }

  /** Bracketing, with any interleaving of the other terminals: after a well-nested run of
      executes and halts, terminal `t` has the same live processes with the same parents
      and the same top process, which runs again whenever `t` has its turn. */
  lemma Bracketing(s: Procs, chains: Chains, es: seq<Event>, t: Term)
    requires Inv(s, chains) && CanRun(s, es) && WellNested(s, es, t, 0)
    ensures RunChains(s, chains, es)[t] == chains[t]
    ensures Run(s, es).topPid[t] == s.topPid[t]
    ensures forall p: Pid :: p in chains[t] <==> !Run(s, es).freePid[p] && Run(s, es).pidToTerm[p] == t
    ensures forall p: Pid :: p in chains[t] && p >= MAX_TERM ==> Run(s, es).parentPid[p] == s.parentPid[p]
    ensures Home(Run(s, es)) == t ==> Run(s, es).currPid == s.topPid[t]
  {
    NestingRestoresChain(s, chains, es, t, chains[t], 0);
    RunKeepsInv(s, chains, es);
    SameChainSameProcesses(s, chains, Run(s, es), RunChains(s, chains, es), t);
  }

  /** When all three terminals are well nested, the whole allocation is restored. */
  lemma FullBracketing(s: Procs, chains: Chains, es: seq<Event>)
    requires Inv(s, chains) && CanRun(s, es) && forall t: Term :: WellNested(s, es, t, 0)
    ensures Run(s, es).freePid == s.freePid && Run(s, es).topPid == s.topPid
    ensures Home(Run(s, es)) == Home(s) ==> Run(s, es).currPid == s.currPid
  {
    var s' := Run(s, es);
    RunKeepsInv(s, chains, es);
    forall t: Term
      ensures RunChains(s, chains, es)[t] == chains[t]
    {
      NestingRestoresChain(s, chains, es, t, chains[t], 0);
    }
    assert RunChains(s, chains, es) == chains;
    SameChainsSameTable(s, chains, s', RunChains(s, chains, es));
  }

  lemma LiveInBoth(s: Procs, chains: Chains, s': Procs, chains': Chains, p: Pid)
    requires Inv(s, chains) && Inv(s', chains') && chains' == chains && Live(s, p)
    ensures Live(s', p)
  {
    SameChainSameProcesses(s, chains, s', chains', s.pidToTerm[p]);
    assert p in chains[s.pidToTerm[p]];
  }

  lemma SameChainsSameTable(s: Procs, chains: Chains, s': Procs, chains': Chains)
    requires Inv(s, chains) && Inv(s', chains') && chains' == chains
    ensures s'.freePid == s.freePid && s'.topPid == s.topPid
    ensures Home(s') == Home(s) ==> s'.currPid == s.currPid
  {
    forall t: Term
      ensures s'.topPid[t] == s.topPid[t]
    {
      SameChainSameProcesses(s, chains, s', chains', t);
    }
    forall p: Pid
      ensures s'.freePid[p] == s.freePid[p]
    {
      if Live(s, p) {
        LiveInBoth(s, chains, s', chains', p);
      }
      if Live(s', p) {
        LiveInBoth(s', chains', s, chains, p);
      }
    }
  }

  // ----------------------------------------- why execute needs the displayed terminal

  lemma ChildChainNeedsHome(s: Procs, chains: Chains, term: Term, chains': Chains)
    requires Inv(s, chains) && Child(s) < MAX_PID
    requires Inv(Step(s, Execute(term, true)), chains')
    ensures term == Home(s)
  {
    ChildIsNew(s, chains);
    var s' := Step(s, Execute(term, true));
    var c := chains'[term];
    assert IsChain(s', term, c);
    assert c[|c| - 1] == Child(s) && |c| > 1;
    assert s'.parentPid[c[|c| - 1]] == c[|c| - 2];
    assert c[|c| - 2] == s.currPid && s'.pidToTerm[c[|c| - 2]] == term;
  }

  /** A successful execute keeps the invariant, whatever the chains become, exactly when the
      caller's terminal is the displayed one. */
  lemma ExecuteNeedsOwnTerminal(s: Procs, chains: Chains, term: Term)
    requires Inv(s, chains) && Child(s) < MAX_PID
    ensures (exists chains': Chains :: Inv(Step(s, Execute(term, true)), chains')) <==> term == Home(s)
  {
    if term == Home(s) {
      ExecuteKeepsInv(s, chains, Execute(term, true));
    } else {
      forall chains': Chains | Inv(Step(s, Execute(term, true)), chains')
        ensures false
      {
        ChildChainNeedsHome(s, chains, term, chains');
      }
    }
  }

  /** The steady state after boot: the three base shells, the last one started running. */
  const BOOTED: Procs :=
    Procs([false, false, false, true, true, true], [-1, 0, 1, 0, 0, 0], [0, 1, 2, 0, 0, 0], [0, 1, 2], 2, 2)

  const SHELLS: Chains := [[0], [1], [2]]

  lemma BootedInv()
    ensures Inv(BOOTED, SHELLS)
  {
    var chains := SHELLS;
    forall p: Pid | Live(BOOTED, p)
      ensures p in chains[BOOTED.pidToTerm[p]]
    {
      assert chains[p][0] == p;
    }
  }

  /** What goes wrong otherwise: shell 2 runs a program while terminal 0 is displayed; three
      ticks later shell 2 runs again, although its child is alive and it is blocked in execute. */
  lemma BlockedParentIsScheduled()
    ensures var s := Step(Step(Step(Step(BOOTED, Execute(0, true)), Tick), Tick), Tick);
      s.currPid == 2 && !s.freePid[3] && s.parentPid[3] == 2
  {
  }
}
