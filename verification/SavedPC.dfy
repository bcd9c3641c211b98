/** The queue of saved PCs: whether a process that makes a system call is resumed behind it. */
module SavedPC {
  import opened Words
  import opened Y86
  import S = Sequential
  import opened Pipeline
  import opened PipelineProof

  // ---------- one cycle of the queue ----------

  /** How many entries the cycle takes off the front of the queue, for system calls that it squashes in E and in D. */
  function PopCount(p: Pipe): nat {
    var c := PipeLogic(p);
    (if c.eBubble && p.e.stat in {5, 6} then 1 else 0) + if c.dBubble && !c.dStall && p.f.stat in {5, 6} then 1 else 0
  }

  predicate Pops(p: Pipe) {
    PopCount(p) > 0
  }

  /** What the cycle adds at the back: the address predicted behind the system call that it fetches. */
  function Pushed(p: Pipe): seq<int> {
    var f := Cycle(p).f;
    if f.stat in {5, 6} then [f.nextPC] else []
  }

  function Drop(q: seq<int>, k: nat): seq<int> {
    if k <= |q| then q[k..] else []
  }

  /** A cycle takes the oldest entries, whichever calls they belong to, and adds the new one behind. */
  lemma QueueStep(p: Pipe)
    requires !p.suspend
    ensures Cycle(p).savedPC == Drop(p.savedPC, PopCount(p)) + Pushed(p)
  {
    hide PipeLogic, S.AccessMem, LatchM, Decode, AluCalc, AluCC, GetCnd, SelectPC, FetchWith, StageW;
    Frames(p);
    FrameW(p);
    FrameM(PipeLogic(p), AfterStageW(p));
  }

  // ---------- on the right path ----------

  /** Nothing older than what is in D redirects F, and everything older completes. */
  ghost predicate Straight(p: Pipe, a: Isa) {
    && Inv(p, a) && a.stat == SAOK && AfterM(p, a).stat == SAOK && AfterE(p, a).stat == SAOK
    && S.SafeFrom(a) && !Mispredicted(p.e) && p.e.icode != IRET && p.m.icode != IRET
  }

  /** A system call waits in D, at AfterE(p, a), and its address is first in the queue. */
  ghost predicate CallInD(p: Pipe, a: Isa) {
    && Straight(p, a) && !Empty(p.d.stat, p.d.icode) && p.d.stat == SSYS
    && p.savedPC != [] && p.savedPC[0] == FetchAt(AfterE(p, a).mem, AfterE(p, a).pc).valP
  }

  /** A system call is in E, at AfterM(p, a), and its address is first in the queue. */
  predicate CallInE(p: Pipe, a: Isa) {
    && Inv(p, a) && a.stat == SAOK && AfterM(p, a).stat == SAOK
    && !Empty(p.e.stat, p.e.icode) && p.e.stat == SSYS
    && p.savedPC != [] && p.savedPC[0] == FetchAt(AfterM(p, a).mem, AfterM(p, a).pc).valP
  }

  /** An instruction with that status is the system call, and goes behind itself. */
  lemma CallFacts(a: Isa)
    requires a.stat == SAOK && FetchAt(a.mem, a.pc).stat == SSYS && |a.reg| == 8
    ensures var ins := FetchAt(a.mem, a.pc); var b := S.Step(a);
      ins.icode == ISYSCALL && b.stat == SSYS && b.pc == ins.valP && b.reg == a.reg && b.mem == a.mem && b.cc == a.cc
  {
    FetchStatus(a.mem, a.pc);
    hide FetchWith, AluCalc, AluCC, GetCnd;
  }

  lemma FetchStatus(mem: Memory, pc: int)
    ensures FetchAt(mem, pc).stat == SSYS <==> InRange(pc) && FetchAt(mem, pc).icode == ISYSCALL
    ensures FetchAt(mem, pc).stat != SSPD
  {
    hide ReadByte, ReadBytes;
  }

  /** The call moves on to E, and its entry stays first. */
  lemma CallLeavesD(p: Pipe, a: Isa)
    requires CallInD(p, a)
    ensures CallInE(Cycle(p), AfterM(p, a))
  {
    CallNotPopped(p, a);
    NotHeld(p);
    CycleKeepsInv(p, a);
    hide Inv, PlainAhead, S.SafeFrom, LoadUse, Pops, Cycle, S.Step, FetchWith;
    QueueStep(p);
    BackEndOf(p, a);
  }

  /** The instructions that reach M: a shorter form of BackEnd. */
  lemma BackEndOf(p: Pipe, a: Isa)
    requires Inv(p, a) && a.stat == SAOK && AfterM(p, a).stat == SAOK
    ensures AfterM(Cycle(p), AfterM(p, a)) == AfterE(p, a) && !p.suspend
  {
    BackEnd(p, a);
    hide Running, MemorySlot, Cycle, S.Step, FetchWith;
  }

  /** What is in D moves to E, unless E is bubbled. */
  lemma NotHeld(p: Pipe)
    requires !p.suspend && !PipeLogic(p).eBubble
    ensures Cycle(p).e.stat == p.d.stat && Cycle(p).e.icode == p.d.icode
  {
    Frames(p);
    hide PipeLogic, StageW, StageM, StageD, StageF, AluCalc, AluCC, GetCnd;
  }

  lemma CallNotPopped(p: Pipe, a: Isa)
    requires CallInD(p, a)
    ensures !Pops(p) && p.d.icode == ISYSCALL && p.d.stat == SSYS && !PipeLogic(p).eBubble && !p.suspend
  {
    OlderCompletes(p, a);
    InDecode(p, a);
    NoLoad(p, a);
    hide PlainAhead, S.SafeFrom, LoadUse, Running, Stopped;
  }

  /** A system call reads no register, and no load has none to write. */
  lemma NoLoad(p: Pipe, a: Isa)
    requires Straight(p, a) && p.d.srcA == RNONE && p.d.srcB == RNONE
    ensures !LoadUse(p.e, p.d)
  {
    SafeAhead(p, a);
    EffectLoads(AfterM(p, a));
    EffectStat(AfterM(p, a));
    hide FetchWith, S.Execute, S.Step, MemorySlot, BehindE, S.SafeFrom, S.FetchStable, S.WrongPathStable;
  }

  /** What is in E is no system call, since it completes. */
  lemma OlderCompletes(p: Pipe, a: Isa)
    requires Inv(p, a) && a.stat == SAOK && AfterM(p, a).stat == SAOK && AfterE(p, a).stat == SAOK
    ensures p.e.stat !in {SSYS, SSPD}
  {
    if !Empty(p.e.stat, p.e.icode) {
      Completes(AfterM(p, a));
    }
    hide FetchWith, S.Execute, MemorySlot, BehindE;
  }

  lemma Completes(a: Isa)
    requires a.stat == SAOK && S.Step(a).stat == SAOK
    ensures S.Execute(a).ins.stat == SAOK
  {
    hide FetchWith, S.AccessMem, AluCalc, AluCC, GetCnd;
  }

  lemma InDecode(p: Pipe, a: Isa)
    requires Straight(p, a) && !Empty(p.d.stat, p.d.icode)
    ensures Decoded(p.d, AfterE(p, a))
    ensures p.d.stat == SSYS ==> p.d.icode == ISYSCALL && p.d.srcA == RNONE && p.d.srcB == RNONE
  {
    FetchStatus(AfterE(p, a).mem, AfterE(p, a).pc);
    hide FetchWith, S.Execute, S.Step, MemorySlot, BehindD, S.SafeFrom, ExecuteSlot;
  }

  // ---------- from F to D ----------

  /** F holds the instruction behind what is in D, on the right path, and everything older completes. */
  ghost predicate RightInF(p: Pipe, a: Isa) {
    && Straight(p, a) && AfterD(p, a).stat == SAOK
    && (Empty(p.d.stat, p.d.icode) || (p.d.icode != IRET && !S.NotTaken(AfterE(p, a))))
    && !Empty(p.f.stat, p.f.icode)
  }

  lemma RightDecode(p: Pipe, a: Isa)
    requires Straight(p, a)
    ensures DecodeSlot(p.e, p.d, AfterE(p, a)) && BehindD(p, AfterE(p, a)) && !p.suspend && p.f.stat != SSPD
  {
    hide FetchWith, S.Execute, S.Step, MemorySlot, S.SafeFrom, ExecuteSlot, DecodeSlot, BehindD;
  }

  lemma RightIsFetched(p: Pipe, a: Isa)
    requires RightInF(p, a)
    ensures Fetched(p.f, AfterD(p, a)) && p.d.icode != IRET
    ensures p.f.pc == p.f.predPC || (Empty(p.e.stat, p.e.icode) && Empty(p.d.stat, p.d.icode))
  {
    RightDecode(p, a);
    hide Inv, S.SafeFrom, Fetched, DecodeSlot, S.NotTaken, AfterE, AfterM, PlainAhead;
  }

  /** No cycle squashes anything on the right path. */
  lemma NothingSquashed(p: Pipe, a: Isa)
    requires RightInF(p, a)
    ensures PopCount(p) == 0 && !p.suspend && var c := PipeLogic(p);
      !c.dBubble && c.dStall == c.fStall == LoadUse(p.e, p.d) && c.eBubble == LoadUse(p.e, p.d)
  {
    OlderCompletes(p, a);
    RightIsFetched(p, a);
    RightDecode(p, a);
    SafeAhead(p, a);
    NotBehindLeave(p, a);
    hide Inv, S.SafeFrom, LoadUse, Fetched, DecodeSlot, BehindD, AfterE, AfterM, AfterD;
  }

  lemma FlowsOrWaits(p: Pipe, a: Isa)
    requires RightInF(p, a)
    ensures Advancing(p, a) && (!LoadUse(p.e, p.d) ==> Flowing(p, a))
    ensures S.Plain(AfterD(p, a)) && S.SafeFrom(AfterM(p, a))
  {
    SafeAhead(p, a);
    NotBehindLeave(p, a);
    hide Inv, S.SafeFrom, LoadUse, S.Plain, AfterE, AfterM, AfterD;
  }

  /** The instruction in F moves to D, on the right path. */
  lemma MovesToD(p: Pipe, a: Isa)
    requires RightInF(p, a) && !LoadUse(p.e, p.d)
    ensures var p' := Cycle(p); var a' := AfterM(p, a);
      && Straight(p', a') && AfterE(p', a') == AfterD(p, a)
      && p'.d.stat == p.f.stat && p'.d.icode == p.f.icode && !Empty(p'.d.stat, p'.d.icode)
  {
    hide FetchWith, S.Execute, S.Step, S.Plain, MemorySlot, Cycle, S.SafeFrom, BehindE, Fetched;
    FlowsOrWaits(p, a);
    NothingSquashed(p, a);
    RightIsFetched(p, a);
    NormalE(p, a);
    BackEnd(p, a);
    CycleKeepsInv(p, a);
    LatchedD(PipeLogic(p), AfterStageE(p));
    Frames(p);
    RightRunning(p, a);
  }

  lemma RightRunning(p: Pipe, a: Isa)
    requires RightInF(p, a)
    ensures p.e.icode != IRET && p.m.icode != IRET && p.d.icode != IRET && AfterD(p, a).stat == SAOK
    ensures !Empty(p.d.stat, p.d.icode) ==> !S.NotTaken(AfterE(p, a))
  {
    RightIsFetched(p, a);
    hide Inv, S.SafeFrom;
  }

  /** Or it waits in F, while D waits for a load; then E becomes empty. */
  lemma StaysInF(p: Pipe, a: Isa)
    requires RightInF(p, a) && LoadUse(p.e, p.d)
    ensures var p' := Cycle(p); var a' := AfterM(p, a);
      RightInF(p', a') && AfterD(p', a') == AfterD(p, a) && Empty(p'.e.stat, p'.e.icode) && !LoadUse(p'.e, p'.d)
  {
    hide FetchWith, S.Execute, S.Step, S.Plain, MemorySlot, Cycle, S.SafeFrom, BehindE, Fetched, FetchAt;
    FlowsOrWaits(p, a);
    NothingSquashed(p, a);
    BackEnd(p, a);
    CycleKeepsInv(p, a);
    BubbleE(PipeLogic(p), AfterStageM(p));
    StalledD(PipeLogic(p), AfterStageE(p));
    NeverEmptyF(PipeLogic(p), AfterStageD(p));
    Frames(p);
    RightRunning(p, a);
    HeldInstruction(p, a);
  }

  /** A load is waited for by an instruction. */
  lemma HeldInstruction(p: Pipe, a: Isa)
    requires RightInF(p, a) && LoadUse(p.e, p.d)
    ensures !Empty(p.d.stat, p.d.icode) && !(p.e.icode in {INOP, IHALT})
  {
    FlowsOrWaits(p, a);
    LoadUseFacts(p, a);
  }

  /** A system call in F, on the right path, and its address is first in the queue. */
  ghost predicate CallInF(p: Pipe, a: Isa) {
    && RightInF(p, a) && p.f.stat == SSYS
    && p.savedPC != [] && p.savedPC[0] == FetchAt(AfterD(p, a).mem, AfterD(p, a).pc).valP
  }

  lemma CallLeavesF(p: Pipe, a: Isa)
    requires CallInF(p, a)
    ensures var p' := Cycle(p); var a' := AfterM(p, a);
      && !Pops(p)
      && (LoadUse(p.e, p.d) ==> CallInF(p', a') && AfterD(p', a') == AfterD(p, a) && !LoadUse(p'.e, p'.d))
      && (!LoadUse(p.e, p.d) ==> CallInD(p', a') && AfterE(p', a') == AfterD(p, a))
  {
    hide Cycle, RightInF, Straight, AfterD, AfterE, AfterM, LoadUse, FetchAt, PopCount;
    NothingSquashed(p, a);
    QueueStep(p);
    RightIsFetched(p, a);
    if LoadUse(p.e, p.d) {
      StaysInF(p, a);
      RightIsFetched(Cycle(p), AfterM(p, a));
    } else {
      MovesToD(p, a);
    }
  }

  /** A system call that is fetched with an empty queue comes to E with its address first in the queue, in two cycles,
      or three if a load is waited for. */
  lemma CallArrives(p: Pipe, a: Isa) returns (n: nat, b: Isa)
    requires CallInF(p, a)
    ensures 2 <= n <= 3 && CallInE(Run(p, n), b) && S.SafeFrom(b) && AfterM(Run(p, n), b) == AfterD(p, a)
  {
    hide Cycle, CallInF, CallInD, CallInE, AfterD, AfterE, AfterM, LoadUse, S.SafeFrom;
    CallLeavesF(p, a);
    if LoadUse(p.e, p.d) {
      n, b := CallArrives2(Cycle(p), AfterM(p, a));
    } else {
      n, b := CallArrives1(Cycle(p), AfterM(p, a));
    }
    n := n + 1;
  }

  lemma CallArrives2(p: Pipe, a: Isa) returns (n: nat, b: Isa)
    requires CallInF(p, a) && !LoadUse(p.e, p.d)
    ensures n == 2 && CallInE(Run(p, n), b) && S.SafeFrom(b) && AfterM(Run(p, n), b) == AfterD(p, a)
  {
    hide Cycle, CallInF, CallInD, CallInE, AfterD, AfterE, AfterM, LoadUse, S.SafeFrom;
    CallLeavesF(p, a);
    n, b := CallArrives1(Cycle(p), AfterM(p, a));
    n := n + 1;
  }

  lemma CallArrives1(p: Pipe, a: Isa) returns (n: nat, b: Isa)
    requires CallInD(p, a)
    ensures n == 1 && CallInE(Run(p, n), b) && S.SafeFrom(b) && AfterM(Run(p, n), b) == AfterE(p, a)
  {
    hide Cycle, CallInE, S.SafeFrom;
    n, b := 1, AfterM(p, a);
    assert Run(p, 1) == Run(Cycle(p), 0);
    CallLeavesD(p, a);
    SafeAfter(p, a);
    BackEndOf(p, a);
  }

  lemma SafeAfter(p: Pipe, a: Isa)
    requires S.SafeFrom(a)
    ensures S.SafeFrom(AfterM(p, a))
  {
    hide S.SafeFrom, S.Step;
    S.SafeFromStep(a);
  }

  // ---------- the call retires ----------

  /** The two cycles in which the call goes through M and W, and stops the core. */
  lemma CallRetires(p: Pipe, a: Isa)
    requires CallInE(p, a) && S.SafeFrom(a)
    ensures var q := Cycle(Cycle(p)); var b := AfterE(p, a);
      && q.stat == SSYS && b.stat == SSYS && q.reg == b.reg && q.mem == b.mem && q.cc == b.cc
      && b.pc == p.savedPC[0]
    ensures !Cycle(p).suspend && !p.suspend
  {
    hide FetchWith, S.Execute, S.Step, MemorySlot, Cycle, S.SafeFrom, BehindE;
    CallStops(p, a);
    CycleKeepsInv(p, a);
    BackEndOf(p, a);
    var p1 := Cycle(p);
    S.SafeFromStep(a);
    StopInM(p1, AfterM(p, a));
    StoppedState(Cycle(p1), AfterE(p, a));
  }

  lemma CallStops(p: Pipe, a: Isa)
    requires CallInE(p, a)
    ensures AfterE(p, a).stat == SSYS && AfterE(p, a).pc == p.savedPC[0]
  {
    RegsAre8(p, a);
    ExecuteStat(p, a);
    CallFacts(AfterM(p, a));
    hide Inv, FetchWith, S.Step;
  }

  lemma ExecuteStat(p: Pipe, a: Isa)
    requires Inv(p, a) && a.stat == SAOK && AfterM(p, a).stat == SAOK && !Empty(p.e.stat, p.e.icode)
    ensures p.e.stat == FetchAt(AfterM(p, a).mem, AfterM(p, a).pc).stat
  {
    EffectLoads(AfterM(p, a));
    hide FetchWith, S.Execute, S.Step, MemorySlot, BehindE;
  }

  lemma RegsAre8(p: Pipe, a: Isa)
    requires Inv(p, a)
    ensures |AfterM(p, a).reg| == 8
  {
    hide Running, Stopped, S.Execute;
  }

  lemma StoppedState(p: Pipe, a: Isa)
    requires Inv(p, a) && a.stat != SAOK && a.stat != SBUB
    ensures p.stat == a.stat && p.reg == a.reg && p.mem == a.mem && p.cc == a.cc
  {
  }

  /** After a system call the address behind it is first in the queue, if and only if no cycle in which it was in E or M
      squashed another call; where one did, the first entry is another one's. */
  lemma CallResumes(p: Pipe, a: Isa)
    requires CallInE(p, a) && S.SafeFrom(a)
    requires forall k :: 1 <= k < |p.savedPC + Pushed(p) + Pushed(Cycle(p))| ==>
      (p.savedPC + Pushed(p) + Pushed(Cycle(p)))[k] != AfterE(p, a).pc
    ensures var q := Cycle(Cycle(p)); var b := AfterE(p, a);
      && q.stat == SSYS && q.reg == b.reg && q.mem == b.mem && q.cc == b.cc
      && ((q.savedPC != [] && q.savedPC[0] == b.pc) <==> !Pops(p) && !Pops(Cycle(p)))
  {
    hide Cycle, Pushed, S.SafeFrom, Inv, S.Step, FetchWith, PipeLogic;
    CallRetires(p, a);
    var p1 := Cycle(p);
    QueueStep(p);
    QueueStep(p1);
    hide PopCount;
    FirstOf(p.savedPC, PopCount(p), Pushed(p), PopCount(p1), Pushed(p1), AfterE(p, a).pc);
  }

  /** The first entry after two cycles is the old one if and only if nothing was taken off. */
  lemma FirstOf(q: seq<int>, k1: nat, x1: seq<int>, k2: nat, x2: seq<int>, b: int)
    requires q != [] && q[0] == b && forall k :: 1 <= k < |q + x1 + x2| ==> (q + x1 + x2)[k] != b
    ensures var r := Drop(Drop(q, k1) + x1, k2) + x2; (r != [] && r[0] == b) <==> k1 == 0 && k2 == 0
  {
    var all := q + x1 + x2;
    var r1 := Drop(q, k1) + x1;
    assert forall i :: 0 <= i < |r1| ==> r1[i] == all[|q + x1| - |r1| + i];
    var r := Drop(r1, k2) + x2;
    assert forall i :: 0 <= i < |r| ==> r[i] == all[|all| - |r| + i];
  }

  // ---------- the first entry over many cycles ----------

  /** b is in the queue, first and nowhere else. */
  predicate OnlyFirst(q: seq<int>, b: int) {
    q != [] && q[0] == b && b !in q[1..]
  }

  /** A core that is not asked again to suspend. */
  lemma StillNotAsked(p: Pipe)
    requires !p.suspend
    ensures !Cycle(p).suspend
  {
    Frames(p);
    hide StageW, StageM, StageE, StageD, StageF, PipeLogic;
  }

  /** None of the next n cycles squashes a system call or a suspended instruction. */
  predicate NoPops(p: Pipe, n: nat)
    decreases n
  {
    n == 0 || (!Pops(p) && NoPops(Cycle(p), n - 1))
  }

  /** One of them adds the address to the queue. */
  predicate Adds(p: Pipe, n: nat, b: int)
    decreases n
  {
    n > 0 && (b in Pushed(p) || Adds(Cycle(p), n - 1, b))
  }

  /** Over any number of cycles that add other addresses: an address that is first in the queue stays first if and
      only if no cycle squashes a system call or a suspended instruction. */
  lemma {:induction false} FirstKept(p: Pipe, n: nat, b: int)
    requires !p.suspend && OnlyFirst(p.savedPC, b) && !Adds(p, n, b)
    ensures var q := Run(p, n).savedPC; (q != [] && q[0] == b) <==> NoPops(p, n)
    decreases n
  {
    hide Cycle, PipeLogic, Pushed, PopCount;
    if n > 0 {
      QueueStep(p);
      StillNotAsked(p);
      if Pops(p) {
        Gone(Cycle(p), n - 1, b);
      } else {
        FirstKept(Cycle(p), n - 1, b);
      }
    }
  }

  lemma {:induction false} Gone(p: Pipe, n: nat, b: int)
    requires !p.suspend && b !in p.savedPC && !Adds(p, n, b)
    ensures b !in Run(p, n).savedPC
    decreases n
  {
    hide Cycle, PipeLogic, Pushed, PopCount;
    if n > 0 {
      QueueStep(p);
      StillNotAsked(p);
      Gone(Cycle(p), n - 1, b);
    }
  }

  /** What squashes a call or suspended instruction: a branch that is not taken, with one in E or F, a ret in flight
      that nothing holds up, with one in F, and a load that is waited for and is one itself. */
  lemma WhenPops(p: Pipe)
    ensures Pops(p) <==>
      || (Mispredicted(p.e) && (p.e.stat in {5, 6} || p.f.stat in {5, 6}))
      || (LoadUse(p.e, p.d) && p.e.icode != ILEAVE && p.e.stat in {5, 6})
      || (!LoadUse(p.e, p.d) && RetInFlight(p.d, p.e, p.m) && p.f.stat in {5, 6})
  {
  }

  /** A branch that is not taken, with nothing queued before: of the two calls that may have been fetched behind it,
      only one is taken off, the older entry. An entry is left exactly if the first instruction at the target was a
      call, and it is then the first in the queue when the next call of the program is added. */
  lemma BranchLeaves(p: Pipe)
    requires !p.suspend && p.savedPC == [] && PopCount(p) == 0 && PopCount(Cycle(p)) == 0
    requires Mispredicted(Cycle(Cycle(p)).e) && Cycle(Cycle(p)).e.stat == SAOK
    ensures var first, second := Pushed(p), Pushed(Cycle(p)); var p2 := Cycle(Cycle(p));
      Cycle(p2).savedPC == (if first == [] then [] else if second == [] then first else second) + Pushed(p2)
  {
    hide Cycle, PopCount;
    var p1, p2 := Cycle(p), Cycle(Cycle(p));
    StillNotAsked(p);
    StillNotAsked(p1);
    QueueStep(p);
    QueueStep(p1);
    QueueStep(p2);
    SquashCount(p2);
  }

  lemma SquashCount(p: Pipe)
    requires Mispredicted(p.e) && p.e.stat == SAOK
    ensures PopCount(p) == if p.f.stat in {5, 6} then 1 else 0
  {
  }
}
