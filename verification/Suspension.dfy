/** The request to suspend a process: which instruction is its last, what state it leaves, and where it is resumed. */
module Suspension {
  import opened Words
  import opened Y86
  import S = Sequential
  import opened Pipeline
  import opened PipelineProof
  import opened SavedPC

  // The pipeline that was asked is compared, cycle by cycle, with the same pipeline as if nobody had asked.

  /** W, M and the program's state are the same. */
  predicate SameBack(s: Pipe, p: Pipe) {
    && s.w == p.w && s.m == p.m && s.reg == p.reg && s.cc == p.cc && s.mem == p.mem && s.stat == p.stat && !s.suspend
  }

  /** The instruction in F is the marked one; everything else is as without the request. */
  ghost predicate MarkedF(s: Pipe, p: Pipe, a: Isa) {
    && RightInF(p, a) && p.f.stat == SAOK
    && SameBack(s, p) && s.e == p.e && s.d == p.d && s.f == p.f.(stat := SSPD)
  }

  /** The instruction in D is the marked one; what is in F does not matter. */
  ghost predicate MarkedD(s: Pipe, p: Pipe, a: Isa) {
    && Straight(p, a) && !Empty(p.d.stat, p.d.icode)
    && SameBack(s, p) && s.e == p.e && s.d == p.d.(stat := SSPD)
  }

  /** The instruction in E is the marked one; what is in D and F does not matter. */
  ghost predicate MarkedE(s: Pipe, p: Pipe, a: Isa) {
    && Inv(p, a) && a.stat == SAOK && AfterM(p, a).stat == SAOK
    && !Empty(p.e.stat, p.e.icode)
    && SameBack(s, p) && s.e == p.e.(stat := SSPD)
  }

  // ---------- F does not reach the older stages ----------

  lemma StageWIgnoresF(p: Pipe, g: FetchReg)
    ensures StageW(p.(f := g)) == StageW(p).(f := g)
  {
  }

  lemma StageMIgnoresF(c: Control, p: Pipe, g: FetchReg)
    ensures StageM(c, p.(f := g)) == StageM(c, p).(f := g)
  {
    hide S.AccessMem, LatchM;
  }

  lemma StageEIgnoresF(c: Control, p: Pipe, g: FetchReg)
    ensures StageE(c, p.(f := g)) == StageE(c, p).(f := g)
  {
    hide AluA, AluB, AluFun, AluCalc, AluCC, GetCnd, SetsCC;
  }

  /** D takes the mark from F, unless it waits. */
  lemma StageDTakesMark(c: Control, p: Pipe)
    requires !c.dBubble || c.dStall
    ensures var r := StageD(c, p.(f := Mark(p.f)));
      && r.f == Mark(p.f) && r.savedPC == p.savedPC
      && r.d == (if c.dStall then StageD(c, p).d else StageD(c, p).d.(stat := SSPD))
  {
    hide Forward;
  }

  function Mark(f: FetchReg): FetchReg {
    f.(stat := SSPD)
  }

  /** The older stages after a cycle of the marked pipeline, with or without a held F. */
  lemma MarkedStages(p: Pipe, s: Pipe)
    requires !p.suspend && !PipeLogic(p).dBubble
    requires s == p.(suspend := true) || s == p.(f := Mark(p.f))
    ensures var s', p' := Cycle(s), Cycle(p); var c := PipeLogic(p);
      && SameBack(s', p') && s'.e == p'.e
      && s'.d == (if c.dStall then p'.d else p'.d.(stat := SSPD))
    ensures AfterStageD(s).f == Mark(p.f) && AfterStageD(s).mem == AfterStageD(p).mem
    ensures AfterStageD(s).m == AfterStageD(p).m && AfterStageD(s).w == AfterStageD(p).w
    ensures PipeLogic(s) == PipeLogic(p).(fStall := PipeLogic(p).fStall || s.suspend)
  {
    var c, c' := PipeLogic(p), PipeLogic(s);
    MarkedOlder(p, s);
    Frames(p);
    StageDTakesMark(c, AfterStageE(p));
    FrameD(c, AfterStageE(s));
    FrameF(c', AfterStageD(s));
    hide PipeLogic, StageW, StageM, StageE, StageD, StageF, AfterStageE;
  }

  lemma MarkedOlder(p: Pipe, s: Pipe)
    requires !p.suspend
    requires s == p.(suspend := true) || s == p.(f := Mark(p.f))
    ensures AfterStageE(s) == AfterStageE(p).(f := Mark(p.f)) && AfterStageE(p).f == p.f && !AfterStageE(p).suspend
    ensures var c, c' := PipeLogic(p), PipeLogic(s);
      c' == c.(fStall := c.fStall || s.suspend) && AfterStageD(s) == StageD(c, AfterStageE(s))
  {
    var c, c' := PipeLogic(p), PipeLogic(s);
    var g := Mark(p.f);
    assert TakeSuspend(s) == p.(f := g) && TakeSuspend(p) == p;
    StageWIgnoresF(p, g);
    StageMIgnoresF(c, StageW(p), g);
    StageEIgnoresF(c, StageM(c, StageW(p)), g);
    SameControl(c, c', StageW(p).(f := g));
    FrameW(p);
    FrameM(c, StageW(p));
    FrameE(c, StageM(c, StageW(p)));
    hide StageW, StageM, StageE, StageD, StageF, LoadUse, RetInFlight, Mispredicted;
  }

  /** Only F looks at its own stall. */
  lemma SameControl(c: Control, c': Control, q: Pipe)
    requires c' == c.(fStall := c'.fStall)
    ensures forall r :: StageM(c', r) == StageM(c, r) && StageE(c', r) == StageE(c, r) && StageD(c', r) == StageD(c, r)
  {
    hide S.AccessMem, Decode, AluA, AluB, AluFun, AluCalc, AluCC, GetCnd, SetsCC, LatchD;
  }

  /** A fetch at the same PC under the mark. */
  lemma MarkedFetch(c: Control, c': Control, q: Pipe, r: Pipe)
    requires c.fStall == c'.fStall && q.f == Mark(r.f) && q.mem == r.mem && q.m == r.m && q.w == r.w
    requires r.f.stat != SSPD
    ensures StageF(c', q).f == if StageF(c, r).f.stat == SAOK then Mark(StageF(c, r).f) else StageF(c, r).f
  {
    hide FetchWith, SelectPC;
  }

  // ---------- the request ----------

  /** The instruction in F enters D marked, or is fetched again and marked while D waits for a load. */
  lemma Asked(p: Pipe, s: Pipe, a: Isa)
    requires RightInF(p, a) && (s == p.(suspend := true) || s == p.(f := Mark(p.f)))
    requires p.f.stat == SAOK || !LoadUse(p.e, p.d)
    ensures var s' := Cycle(s); var p' := Cycle(p); var a' := AfterM(p, a);
      && (LoadUse(p.e, p.d) ==> MarkedF(s', p', a') && AfterD(p', a') == AfterD(p, a)
                                && !LoadUse(p'.e, p'.d))
      && (!LoadUse(p.e, p.d) ==> MarkedD(s', p', a') && AfterE(p', a') == AfterD(p, a))
  {
    hide Cycle, RightInF, Straight, AfterD, AfterE, AfterM, LoadUse, FetchAt, PopCount, AfterStageD, PipeLogic;
    NothingSquashed(p, a);
    MarkedStages(p, s);
    RightIsFetched(p, a);
    if LoadUse(p.e, p.d) {
      StaysInF(p, a);
      RightIsFetched(Cycle(p), AfterM(p, a));
      NotSuspended(p, a);
      HeldFetch(p, s);
    } else {
      MovesToD(p, a);
    }
  }

  lemma HeldFetch(p: Pipe, s: Pipe)
    requires !p.suspend && !PipeLogic(p).dBubble && PipeLogic(p).fStall && p.f.stat != SSPD && Cycle(p).f.stat == SAOK
    requires s == p.(suspend := true) || s == p.(f := Mark(p.f))
    ensures Cycle(s).f == Mark(Cycle(p).f)
  {
    MarkedStages(p, s);
    Frames(p);
    MarkedFetch(PipeLogic(p), PipeLogic(s), AfterStageD(s), AfterStageD(p));
    hide PipeLogic, StageW, StageM, StageE, StageD, StageF;
  }

  lemma NotSuspended(p: Pipe, a: Isa)
    requires RightInF(p, a)
    ensures !p.suspend && p.f.stat != SSPD
  {
    RightDecode(p, a);
    hide Straight, S.NotTaken;
  }

  // ---------- the marked instruction in D ----------

  function Front(p: Pipe, d: DecodeReg, f: FetchReg, q: seq<int>): Pipe {
    p.(d := d, f := f, savedPC := q)
  }

  lemma StageWIgnoresFront(p: Pipe, d: DecodeReg, f: FetchReg, q: seq<int>)
    ensures StageW(Front(p, d, f, q)) == Front(StageW(p), d, f, q)
  {
  }

  lemma StageMIgnoresFront(c: Control, p: Pipe, d: DecodeReg, f: FetchReg, q: seq<int>)
    ensures StageM(c, Front(p, d, f, q)) == Front(StageM(c, p), d, f, q)
  {
    hide S.AccessMem, LatchM;
  }

  /** E takes the mark from D, unless it is bubbled. */
  lemma StageETakesMark(c: Control, r: Pipe, f: FetchReg, q: seq<int>)
    ensures var s', r' := StageE(c, Front(r, r.d.(stat := SSPD), f, q)), StageE(c, r);
      s' == Front(r', r.d.(stat := SSPD), f, s'.savedPC).(e := if c.eBubble then r'.e else r'.e.(stat := SSPD))
  {
    hide AluA, AluB, AluFun, AluCalc, AluCC, GetCnd, SetsCC;
  }

  lemma StageDKeepsMark(c: Control, q: Pipe, r: Pipe)
    requires c.dStall && q.d == r.d.(stat := SSPD)
    requires q.e == r.e && q.m == r.m && q.w == r.w && q.reg == r.reg
    ensures StageD(c, q).d == StageD(c, r).d.(stat := SSPD)
  {
    hide Forward;
  }

  /** A cycle of the two pipelines, where D differs in the mark. */
  lemma MarkedStagesD(s: Pipe, p: Pipe)
    requires SameBack(s, p) && s.e == p.e && s.d == p.d.(stat := SSPD) && !p.suspend
    ensures var s', p' := Cycle(s), Cycle(p); var c := PipeLogic(p);
      && c == PipeLogic(s) && SameBack(s', p')
      && s'.e == (if c.eBubble then p'.e else p'.e.(stat := SSPD))
      && (c.dStall && c.eBubble ==> s'.d == p'.d.(stat := SSPD))
  {
    var c := PipeLogic(p);
    var d := p.d.(stat := SSPD);
    assert s == Front(p, d, s.f, s.savedPC);
    StageWIgnoresFront(p, d, s.f, s.savedPC);
    StageMIgnoresFront(c, StageW(p), d, s.f, s.savedPC);
    Frames(p);
    Frames(s);
    FrameW(p);
    FrameM(c, StageW(p));
    StageETakesMark(c, StageM(c, StageW(p)), s.f, s.savedPC);
    if c.dStall && c.eBubble {
      StageDKeepsMark(c, AfterStageE(s), AfterStageE(p));
    }
    FrameE(c, StageM(c, StageW(p)));
    hide PipeLogic, StageW, StageM, StageE, StageD, StageF;
  }

  /** The marked instruction moves to E, or waits in D for a load. */
  lemma MarkedMoves(s: Pipe, p: Pipe, a: Isa)
    requires MarkedD(s, p, a)
    ensures var s', p' := Cycle(s), Cycle(p); var a' := AfterM(p, a);
      && (LoadUse(p.e, p.d) ==> MarkedD(s', p', a') && AfterE(p', a') == AfterE(p, a) && !LoadUse(p'.e, p'.d))
      && (!LoadUse(p.e, p.d) ==> MarkedE(s', p', a') && AfterM(p', a') == AfterE(p, a))
  {
    hide S.SafeFrom, FetchAt, FetchWith, S.Step, S.Execute, MemorySlot, BehindE, Cycle, S.Plain, ExecuteSlot;
    MarkedStagesD(s, p);
    CycleKeepsInv(p, a);
    SafeAfter(p, a);
    BackEnd(p, a);
    SafeAhead(p, a);
    NotBehindLeave(p, a);
    if LoadUse(p.e, p.d) {
      WaitsInD(p, a);
    } else {
      NotHeld(p);
    }
  }

  /** An instruction that waits for a load stays in D, on the right path. */
  lemma WaitsInD(p: Pipe, a: Isa)
    requires Straight(p, a) && LoadUse(p.e, p.d) && !BehindLeave(p)
    ensures var p' := Cycle(p); var a' := AfterM(p, a);
      && Straight(p', a') && AfterE(p', a') == AfterE(p, a) && !LoadUse(p'.e, p'.d)
      && p'.d.stat == p.d.stat && p'.d.icode == p.d.icode
  {
    hide S.SafeFrom, FetchAt, FetchWith, S.Step, S.Execute, MemorySlot, BehindE, Cycle, S.Plain, ExecuteSlot;
    CycleKeepsInv(p, a);
    SafeAfter(p, a);
    BackEnd(p, a);
    BubbleE(PipeLogic(p), AfterStageM(p));
    StalledD(PipeLogic(p), AfterStageE(p));
    Frames(p);
    WaitsBehind(p, a);
  }

  /** It waits for an instruction that completes. */
  lemma WaitsBehind(p: Pipe, a: Isa)
    requires Straight(p, a) && LoadUse(p.e, p.d)
    ensures p.e.icode != IRET && p.m.icode != IRET && AfterE(p, a).stat == SAOK
    ensures PipeLogic(p).eBubble == (p.e.icode != ILEAVE) && PipeLogic(p).dStall && !p.suspend
  {
    hide S.SafeFrom;
  }

  // ---------- the marked instruction in E and M ----------

  /** The mark goes with the instruction to M, where it stops what is behind. */
  lemma MarkedStagesE(s: Pipe, p: Pipe)
    requires SameBack(s, p) && s.e == p.e.(stat := SSPD) && !p.suspend && !PipeLogic(p).mBubble
    requires !p.m.err && !IsStop(p.w.stat)
    ensures var s', p' := Cycle(s), Cycle(p); var fault := S.AccessMem(p.e.icode, p.e.valE, p.e.valA, p.mem).err;
      && s'.w == p'.w && s'.reg == p'.reg && s'.stat == p'.stat && s'.mem == p'.mem && s'.cc == s.cc && !s'.suspend
      && s'.m == p'.m.(stat := SSPD, mStat := s'.m.mStat)
      && s'.m.mStat == (if fault then SADR else SSPD) && p'.m.mStat == (if fault then SADR else p.e.stat)
  {
    Frames(p);
    Frames(s);
    MarkedAccess(s, p);
    hide S.AccessMem, StageD, StageF;
  }

  lemma MarkedAccess(s: Pipe, p: Pipe)
    requires SameBack(s, p) && s.e == p.e.(stat := SSPD) && !p.suspend && !PipeLogic(p).mBubble && !p.m.err
    ensures PipeLogic(s).mBubble == PipeLogic(p).mBubble
    ensures var s2, p2 := StageM(PipeLogic(s), StageW(s)), StageM(PipeLogic(p), StageW(p));
      var fault := S.AccessMem(p.e.icode, p.e.valE, p.e.valA, p.mem).err;
      && s2.w == p2.w && s2.reg == p2.reg && s2.stat == p2.stat && s2.mem == p2.mem && s2.cc == s.cc
      && s2.m == p2.m.(stat := SSPD, mStat := s2.m.mStat)
      && s2.m.mStat == (if fault then SADR else SSPD) && p2.m.mStat == (if fault then SADR else p.e.stat)
  {
    NoAccessNoFault(p.e.icode, p.e.valE, p.e.valA, p.mem);
    hide S.AccessMem, SetReg;
  }

  lemma NoAccessNoFault(icode: int, valE: int, valA: int, mem: Memory)
    ensures !MemReads(icode) && !MemWrites(icode) ==> !S.AccessMem(icode, valE, valA, mem).err
  {
  }

  /** W takes the marked instruction and stops the core; what is behind changes nothing. */
  lemma MarkedStops(s: Pipe, p: Pipe)
    requires s.w == p.w && s.reg == p.reg && !s.suspend && !p.suspend && IsStop(s.m.mStat) && !IsStop(p.w.stat)
    requires s.m == p.m.(stat := SSPD, mStat := s.m.mStat)
    ensures var s' := Cycle(s);
      && s'.reg == Cycle(p).reg && s'.stat == s.m.mStat && s'.mem == s.mem && s'.cc == s.cc
  {
    Frames(s);
    Frames(p);
    hide StageD, StageF, S.AccessMem, SetReg, LoadUse, AluCalc, AluCC, GetCnd;
  }

  /** The status a core stops with behind the instruction at c: its fault, if its access fails, and otherwise SSPD, even
      for an instruction that would have stopped the core. */
  function SuspendedStat(c: Isa): int {
    if FetchAt(c.mem, c.pc).stat == SAOK && S.Step(c).stat != SAOK then S.Step(c).stat else SSPD
  }

  /** The marked instruction is executed to its end, the core stops behind it, and the registers, memory and condition
      codes are those it leaves. */
  lemma MarkedRetires(s: Pipe, p: Pipe, a: Isa)
    requires MarkedE(s, p, a) && S.SafeFrom(a)
    ensures var q := Cycle(Cycle(s)); var b := AfterE(p, a);
      q.reg == b.reg && q.mem == b.mem && q.cc == b.cc && q.stat == SuspendedStat(AfterM(p, a))
  {
    hide Cycle, S.SafeFrom, S.Step, S.Execute, FetchWith, BehindE, S.AccessMem;
    var s1, p1 := Cycle(s), Cycle(p);
    var b := AfterE(p, a);
    InE(p, a);
    MarkedStagesE(s, p);
    CycleKeepsInv(p, a);
    BackEnd(p, a);
    InM(p1, AfterM(p, a));
    BackEnd(p1, AfterM(p, a));
    MarkedStops(s1, p1);
    ExecuteStat(p, a);
    if p.e.stat != SAOK {
      StoppingAccess(p, a);
    }
  }

  /** An instruction that stops the core by itself has no access. */
  lemma StoppingAccess(p: Pipe, a: Isa)
    requires Inv(p, a) && a.stat == SAOK && AfterM(p, a).stat == SAOK && !Empty(p.e.stat, p.e.icode)
    requires p.e.stat != SAOK
    ensures !S.AccessMem(p.e.icode, p.e.valE, p.e.valA, p.mem).err
  {
    EffectLoads(AfterM(p, a));
    StoppingCode(AfterM(p, a).mem, AfterM(p, a).pc);
    NoAccessNoFault(p.e.icode, p.e.valE, p.e.valA, p.mem);
    hide FetchWith, S.Execute, S.Step, MemorySlot, BehindE, S.AccessMem;
  }

  lemma StoppingCode(mem: Memory, pc: int)
    ensures var ins := FetchAt(mem, pc); ins.stat != SAOK ==> !MemReads(ins.icode) && !MemWrites(ins.icode)
  {
    hide ReadByte, ReadBytes;
  }

  lemma InE(p: Pipe, a: Isa)
    requires Inv(p, a) && a.stat == SAOK && AfterM(p, a).stat == SAOK
    ensures p.cc == AfterE(p, a).cc && !p.suspend && !PipeLogic(p).mBubble && !p.m.err && !IsStop(p.w.stat)
  {
    BackEnd(p, a);
    hide FetchWith, S.Step, S.Execute, Cycle, BehindE, ExecuteSlot, MemorySlot, PipeLogic;
  }

  lemma InM(p: Pipe, a: Isa)
    requires Inv(p, a) && a.stat == SAOK && !Empty(p.m.stat, p.m.icode)
    ensures p.m.mStat == AfterM(p, a).stat && !p.suspend && !IsStop(p.w.stat)
  {
    EffectStat(a);
    hide FetchWith, S.Execute, BehindM;
  }

  // ---------- the whole suspension ----------

  /** Two pipelines run side by side until the marked instruction is in E. */
  lemma MarkArrives(s: Pipe, p: Pipe, a: Isa) returns (n: nat, p': Pipe, b: Isa)
    requires MarkedD(s, p, a)
    ensures 1 <= n <= 2 && MarkedE(Run(s, n), p', b) && S.SafeFrom(b) && AfterM(p', b) == AfterE(p, a)
  {
    hide Cycle, MarkedD, MarkedE, AfterE, AfterM, LoadUse, S.SafeFrom;
    MarkedMoves(s, p, a);
    SafeMarked(s, p, a);
    if LoadUse(p.e, p.d) {
      MarkedMoves(Cycle(s), Cycle(p), AfterM(p, a));
      SafeMarked(Cycle(s), Cycle(p), AfterM(p, a));
      n, p', b := 2, Cycle(Cycle(p)), AfterM(Cycle(p), AfterM(p, a));
      assert Run(s, 2) == Run(Cycle(s), 1) == Run(Cycle(Cycle(s)), 0);
    } else {
      n, p', b := 1, Cycle(p), AfterM(p, a);
      assert Run(s, 1) == Run(Cycle(s), 0);
    }
  }

  lemma SafeMarked(s: Pipe, p: Pipe, a: Isa)
    requires MarkedD(s, p, a)
    ensures S.SafeFrom(AfterM(p, a))
  {
    SafeAfter(p, a);
    hide Inv, AfterM, S.SafeFrom;
  }

  /** From the marked instruction in D on: in three or four cycles the core has stopped. */
  lemma MarkedDStops(s: Pipe, p: Pipe, a: Isa) returns (n: nat)
    requires MarkedD(s, p, a)
    ensures 3 <= n <= 4
    ensures var q := Run(s, n); var b := S.Step(AfterE(p, a));
      q.reg == b.reg && q.mem == b.mem && q.cc == b.cc && q.stat == SuspendedStat(AfterE(p, a))
  {
    hide Cycle, MarkedD, MarkedE, AfterE, AfterM, LoadUse, S.SafeFrom, S.Step, SuspendedStat;
    var m, p1, b := MarkArrives(s, p, a);
    MarkedRetires(Run(s, m), p1, b);
    StepsOn(p1, b, Run(s, m));
    n := m + 2;
    RunSplit(s, m, 2);
    var t := Run(s, m);
    assert Run(t, 2) == Run(Cycle(t), 1) == Run(Cycle(Cycle(t)), 0);
  }

  /** And from the marked instruction in F on, in four to six. */
  lemma MarkedFStops(s: Pipe, p: Pipe, a: Isa) returns (n: nat)
    requires MarkedF(s, p, a)
    ensures 4 <= n <= 6 && (!LoadUse(p.e, p.d) ==> n <= 5)
    ensures var q := Run(s, n); var b := S.Step(AfterD(p, a));
      q.reg == b.reg && q.mem == b.mem && q.cc == b.cc && q.stat == SuspendedStat(AfterD(p, a))
    decreases LoadUse(p.e, p.d)
  {
    hide Cycle, RightInF, MarkedF, MarkedD, MarkedE, AfterD, AfterE, AfterM, LoadUse, S.SafeFrom, S.Step, SuspendedStat;
    var r := p.(savedPC := s.savedPC);
    WithQueue(p, a, s);
    Asked(r, s, a);
    if LoadUse(p.e, p.d) {
      n := MarkedFStops(Cycle(s), Cycle(r), AfterM(r, a));
    } else {
      n := MarkedDStops(Cycle(s), Cycle(r), AfterM(r, a));
    }
    n := n + 1;
    assert Run(s, n) == Run(Cycle(s), n - 1);
  }

  /** A request that finds an instruction of the right path in F: within six cycles the core has stopped, behind exactly
      that instruction, with the registers, memory and condition codes that it leaves on the sequential machine. */
  lemma SuspendsBehind(p: Pipe, a: Isa) returns (n: nat)
    requires RightInF(p, a) && (p.f.stat == SAOK || !LoadUse(p.e, p.d))
    ensures 4 <= n <= 6
    ensures var q := Run(p.(suspend := true), n); var b := S.Step(AfterD(p, a));
      q.reg == b.reg && q.mem == b.mem && q.cc == b.cc && q.stat == SuspendedStat(AfterD(p, a))
  {
    hide Cycle, RightInF, MarkedF, MarkedD, AfterD, AfterE, AfterM, LoadUse, S.SafeFrom, S.Step, SuspendedStat;
    var s := p.(suspend := true);
    Asked(p, s, a);
    if LoadUse(p.e, p.d) {
      n := MarkedFStops(Cycle(s), Cycle(p), AfterM(p, a));
    } else {
      n := MarkedDStops(Cycle(s), Cycle(p), AfterM(p, a));
    }
    n := n + 1;
    assert Run(s, n) == Run(Cycle(s), n - 1);
  }

  /** The invariant does not depend on the queue. */
  lemma AnyQueue(p: Pipe, a: Isa, q: seq<int>)
    requires Inv(p, a)
    ensures Inv(p.(savedPC := q), a)
  {
    var r := p.(savedPC := q);
    assert AfterM(r, a) == AfterM(p, a) && AfterE(r, a) == AfterE(p, a) && Source(r, a) == Source(p, a);
    FrontAnyQueue(p, Source(p, a), AfterE(p, a), q);
    hide S.Step, S.Execute, FetchWith, S.SafeFrom, MemorySlot, ExecuteSlot, BehindE, AfterM, AfterE, Source;
  }

  lemma FrontAnyQueue(p: Pipe, src: Isa, b: Isa, q: seq<int>)
    ensures BehindE(p.(savedPC := q), src, b) == BehindE(p, src, b)
  {
    hide S.Step, S.NotTaken, S.WrongPathOK, DecodeSlot, Fetched, HeldBehind;
  }

  /** Nor does the comparison. */
  lemma WithQueue(p: Pipe, a: Isa, s: Pipe)
    requires MarkedF(s, p, a)
    ensures var r := p.(savedPC := s.savedPC);
      && RightInF(r, a) && r.f.stat == SAOK && s == r.(f := Mark(r.f)) && r.e == p.e && r.d == p.d
      && AfterD(r, a) == AfterD(p, a)
  {
    var r := p.(savedPC := s.savedPC);
    assert AfterM(r, a) == AfterM(p, a) && AfterE(r, a) == AfterE(p, a);
    AnyQueue(p, a, s.savedPC);
    hide Inv, S.SafeFrom, S.Step, S.Execute, FetchWith;
  }

  lemma StepsOn(p: Pipe, b: Isa, s: Pipe)
    requires MarkedE(s, p, b)
    ensures AfterE(p, b) == S.Step(AfterM(p, b))
  {
    hide Inv, S.Step, AfterM;
  }

  lemma {:induction false} RunSplit(p: Pipe, k: nat, m: nat)
    ensures Run(p, k + m) == Run(Run(p, k), m)
    decreases k
  {
    hide Cycle;
    if k > 0 {
      RunSplit(Cycle(p), k - 1, m);
    }
  }

  // ---------- where it is resumed ----------

  /** The cycle of the request adds the address predicted behind what F fetches again. */
  lemma AskedQueue(p: Pipe, a: Isa)
    requires RightInF(p, a)
    ensures var s' := Cycle(p.(suspend := true));
      s'.savedPC == p.savedPC + (if s'.f.stat in {5, 6} then [s'.f.nextPC] else [])
  {
    NothingSquashed(p, a);
    QueueOf(p);
    hide RightInF, Cycle, PipeLogic, AfterStageD;
    var s := p.(suspend := true);
    QueueOfF(PipeLogic(s), AfterStageD(s));
  }

  lemma QueueOf(p: Pipe)
    requires !p.suspend && PopCount(p) == 0 && !PipeLogic(p).dBubble
    ensures AfterStageD(p.(suspend := true)).savedPC == p.savedPC
    ensures Cycle(p.(suspend := true)) == StageF(PipeLogic(p.(suspend := true)), AfterStageD(p.(suspend := true)))
  {
    hide S.AccessMem, LatchM, Decode, AluCalc, AluCC, GetCnd, FetchWith, SetReg;
  }

  lemma QueueOfF(c: Control, q: Pipe)
    ensures StageF(c, q).savedPC == q.savedPC + (if StageF(c, q).f.stat in {5, 6} then [StageF(c, q).f.nextPC] else [])
  {
    hide FetchWith, SelectPC;
  }

  /** The marked instruction is fetched again: F held its address. */
  lemma FetchedAgain(p: Pipe, a: Isa)
    requires RightInF(p, a) && p.f.stat == SAOK && p.f.pc == p.f.predPC
    ensures var s' := Cycle(p.(suspend := true)); var ins := FetchAt(AfterD(p, a).mem, AfterD(p, a).pc);
      s'.f.stat == SSPD && s'.f.nextPC == PredPC(ins)
  {
    hide RightInF, AfterD, AfterE, AfterM, FetchWith, PipeLogic, AfterStageD, Cycle, S.Plain;
    var s := p.(suspend := true);
    NothingSquashed(p, a);
    RightIsFetched(p, a);
    NotSuspended(p, a);
    MarkedStages(p, s);
    QueueOf(p);
    SameCode(p, a);
    NoRedirect(p, a);
    HeldPC(PipeLogic(s), AfterStageD(s), AfterD(p, a));
  }

  lemma NoRedirect(p: Pipe, a: Isa)
    requires RightInF(p, a)
    ensures SelectPC(AfterStageD(p).m, AfterStageD(p).w, p.f.predPC) == p.f.predPC
  {
    FlowsOrWaits(p, a);
    RightRunning(p, a);
    Redirection(p, a, p.f.predPC);
    hide Straight;
  }

  /** The code at the PC is the same before and after the instruction in D. */
  lemma SameCode(p: Pipe, a: Isa)
    requires RightInF(p, a) && p.f.stat == SAOK
    ensures var b := AfterD(p, a);
      FetchAt(AfterStageD(p).mem, b.pc) == FetchAt(b.mem, b.pc) && InRange(b.pc)
  {
    hide FetchWith, S.Execute, S.Step, MemorySlot, BehindE, S.SafeFrom, Fetched, StageW, StageM, StageE, StageD, StageF;
    FlowsOrWaits(p, a);
    RightIsFetched(p, a);
    Frames(p);
    BackEnd(p, a);
    SaokInRange(p.f, AfterD(p, a));
  }

  lemma SaokInRange(f: FetchReg, b: Isa)
    requires Fetched(f, b) && f.stat == SAOK
    ensures InRange(b.pc)
  {
    hide ReadByte, ReadBytes;
  }

  lemma HeldPC(c: Control, q: Pipe, b: Isa)
    requires c.fStall && q.f.stat == SSPD && !q.f.imemError && InRange(b.pc)
    requires SelectPC(q.m, q.w, q.f.predPC) == b.pc
    requires FetchAt(q.mem, b.pc).stat == SAOK
    ensures StageF(c, q).f.stat == SSPD && StageF(c, q).f.nextPC == PredPC(FetchAt(q.mem, b.pc))
  {
    hide FetchWith, SelectPC;
  }

  /** Where the process is resumed: the address predicted behind its last instruction, if and only if no cycle from
      then on squashes a suspended instruction. */
  lemma SuspendResumes(p: Pipe, a: Isa) returns (n: nat)
    requires RightInF(p, a) && p.f.stat == SAOK && p.f.pc == p.f.predPC && p.savedPC == []
    ensures 4 <= n <= 6
    ensures var s := p.(suspend := true); var q := Run(s, n); var b := S.Step(AfterD(p, a));
      && q.reg == b.reg && q.mem == b.mem && q.cc == b.cc && q.stat == SuspendedStat(AfterD(p, a))
    ensures var s := Cycle(p.(suspend := true)); var q := Run(s, n - 1).savedPC;
      var next := PredPC(FetchAt(AfterD(p, a).mem, AfterD(p, a).pc));
      !Adds(s, n - 1, next) ==> ((q != [] && q[0] == next) <==> NoPops(s, n - 1))
  {
    hide RightInF, AfterD, AfterE, AfterM, FetchWith, Cycle, S.Step, Pops, Pushed;
    n := SuspendsBehind(p, a);
    var s := Cycle(p.(suspend := true));
    var next := PredPC(FetchAt(AfterD(p, a).mem, AfterD(p, a).pc));
    AskedQueue(p, a);
    FetchedAgain(p, a);
    assert s.savedPC == [next];
    Consumed(p.(suspend := true));
    if !Adds(s, n - 1, next) {
      FirstKept(s, n - 1, next);
    }
  }

  lemma Consumed(s: Pipe)
    ensures !Cycle(s).suspend
  {
    hide PipeLogic, S.AccessMem, LatchM, Decode, AluCalc, AluCC, GetCnd, FetchWith, SetReg, SelectPC;
  }

  /** That is where the process has to go on, unless its last instruction is a ret or a branch that is not taken. */
  lemma PredictedIsNext(a: Isa)
    requires a.stat == SAOK && S.Step(a).stat == SAOK
    ensures var ins := FetchAt(a.mem, a.pc); ins.icode != IRET && !S.NotTaken(a) ==> PredPC(ins) == S.Step(a).pc
    ensures S.NotTaken(a) ==>
      (PredPC(FetchAt(a.mem, a.pc)) == S.Step(a).pc <==> FetchAt(a.mem, a.pc).valC == FetchAt(a.mem, a.pc).valP)
  {
    NextFetch(a);
    EffectPC(a);
    hide FetchWith, GetCnd, S.Execute;
  }

  // ---------- what is lost ----------

  /** A request that finds a system call in F takes its place: the call goes on as a suspended instruction, and its
      process as one that did not ask for anything. */
  lemma CallIsLost(p: Pipe, a: Isa)
    requires RightInF(p, a) && p.f.stat == SSYS && !LoadUse(p.e, p.d)
    ensures var d, d' := Cycle(p).d, Cycle(p.(suspend := true)).d;
      d.icode == ISYSCALL && d.stat == 5 && d' == d.(stat := 6)
  {
    hide Cycle, Straight, LoadUse, AfterStageD, PipeLogic, FetchAt, S.NotTaken, AfterM, AfterE;
    NothingSquashed(p, a);
    MarkedStages(p, p.(suspend := true));
    MovesToD(p, a);
    RightIsFetched(p, a);
    FetchStatus(AfterD(p, a).mem, AfterD(p, a).pc);
  }

  /** The process goes on from the saved PC, registers and memory, but with the codes that init leaves: that is the
      state it was suspended in if and only if these were its codes. */
  lemma CodesAreLost(b: Isa)
    requires b.stat == SAOK && |b.reg| == 8
    ensures Inv(Reset(b.pc, b.reg, b.mem), Initial(b.pc, b.reg, b.mem))
    ensures Initial(b.pc, b.reg, b.mem) == b <==> b.cc == CC(true, false, false)
  {
    ResetInv(b.pc, b.reg, b.mem);
    hide Inv, Reset;
  }

  /** It makes no difference if the next instruction sets them. */
  lemma CodesAreDead(b: Isa, cc: CC)
    requires b.stat == SAOK
    requires var ins := FetchAt(b.mem, b.pc); ins.icode == ICMPL || (ins.icode == IOPL && ins.ifun < 4)
    ensures S.Step(b.(cc := cc)) == S.Step(b)
  {
    SmallFunction(b.mem, b.pc);
    hide FetchAt, AluCalc;
  }

  lemma SmallFunction(mem: Memory, pc: int)
    ensures 0 <= FetchAt(mem, pc).ifun
  {
    hide ReadByte, ReadBytes;
  }

  /** It makes one if the next instruction is a jump that they decide. */
  lemma CodesDecide(b: Isa, cc: CC)
    requires b.stat == SAOK
    requires var ins := FetchAt(b.mem, b.pc); ins.icode == IJXX && ins.valC != ins.valP
    ensures var ins := FetchAt(b.mem, b.pc);
      S.Step(b.(cc := cc)).pc == S.Step(b).pc <==> GetCnd(ins.ifun, cc) == GetCnd(ins.ifun, b.cc)
  {
    hide FetchAt, AluCalc, AluCC, GetCnd;
  }
}
