/** A request to suspend that comes at any time, also while F is on a wrong path: the core stops behind one
    instruction of the program, or the request is lost and the program goes on. */
module Requests {
  import opened Words
  import opened Y86
  import S = Sequential
  import opened Pipeline
  import opened PipelineProof
  import opened SavedPC
  import opened Suspension

  /** The pipeline was asked just now, or what is in its F carries the mark. */
  predicate Requested(s: Pipe, p: Pipe) {
    s == p.(suspend := true) || s == p.(f := Mark(p.f))
  }

  // ---------- behind a ret ----------

  /** The older stages of the two pipelines while D is bubbled. */
  lemma BubbledStages(p: Pipe, s: Pipe)
    requires !p.suspend && PipeLogic(p).dBubble && !PipeLogic(p).dStall && Requested(s, p)
    ensures var s', p' := Cycle(s), Cycle(p); SameBack(s', p') && s'.e == p'.e && s'.d == p'.d
    ensures AfterStageD(s).f == Mark(p.f) && AfterStageD(s).mem == AfterStageD(p).mem
    ensures AfterStageD(s).m == AfterStageD(p).m && AfterStageD(s).w == AfterStageD(p).w
    ensures PipeLogic(s) == PipeLogic(p).(fStall := PipeLogic(p).fStall || s.suspend)
  {
    var c, c' := PipeLogic(p), PipeLogic(s);
    MarkedOlder(p, s);
    Frames(p);
    StageDBubbled(c, AfterStageE(p));
    FrameD(c, AfterStageE(s));
    FrameF(c', AfterStageD(s));
    hide PipeLogic, StageW, StageM, StageE, StageD, StageF, AfterStageE;
  }

  lemma StageDBubbled(c: Control, p: Pipe)
    requires c.dBubble && !c.dStall
    ensures var r := StageD(c, p.(f := Mark(p.f))); r.f == Mark(p.f) && r.d == StageD(c, p).d
  {
  }

  /** Where F is held, the two pipelines differ in the mark only, or not at all any more. */
  lemma HeldBehind(p: Pipe, s: Pipe)
    requires !p.suspend && p.f.stat != SSPD && PipeLogic(p).fStall && Requested(s, p)
    requires (PipeLogic(p).dBubble && !PipeLogic(p).dStall) || PipeLogic(p).dStall
    requires PipeLogic(p).dStall ==> !PipeLogic(p).dBubble
    ensures var s', p' := Cycle(s), Cycle(p); var r := p'.(savedPC := s'.savedPC);
      s' == if r.f.stat == SAOK then r.(f := Mark(r.f)) else r
  {
    if PipeLogic(p).dStall {
      MarkedStages(p, s);
    } else {
      BubbledStages(p, s);
    }
    Frames(p);
    FrameF(PipeLogic(s), AfterStageD(s));
    MarkedFetch(PipeLogic(p), PipeLogic(s), AfterStageD(s), AfterStageD(p));
    Consumed(s);
    CycleIsF(s);
    hide PipeLogic, StageW, StageM, StageE, StageD, StageF, AfterStageD;
  }

  lemma CycleIsF(s: Pipe)
    ensures Cycle(s) == StageF(PipeLogic(s), AfterStageD(s))
  {
    hide PipeLogic, StageW, StageM, StageE, StageD, StageF;
  }

  // ---------- the redirect ----------

  /** The fetch registers after a fetch of the instruction at b, whatever was there before. */
  lemma FetchesRight(f: FetchReg, b: Isa, predPC: int)
    requires f.imemError ==> !InRange(b.pc)
    ensures var ins := FetchAt(b.mem, b.pc); var g := LatchF(f, ins, predPC, b.pc);
      && Fetched(g.(stat := ins.stat), b)
      && g.stat == (if ins.stat == SAOK && f.stat == SSPD then SSPD else ins.stat)
  {
    hide FetchWith;
  }

  /** s, once it has taken the request, is p but for D's status, F and the queue. */
  predicate Alike(s: Pipe, p: Pipe) {
    var t := TakeSuspend(s);
    && t == Front(p, p.d.(stat := t.d.stat), t.f, t.savedPC) && !p.suspend
    && PipeLogic(s) == PipeLogic(p).(fStall := PipeLogic(p).fStall || s.suspend)
  }

  /** A cycle in which D is bubbled, and E is or D is the same: then both are the same afterwards. */
  lemma RedirectStages(s: Pipe, p: Pipe)
    requires Alike(s, p)
    requires PipeLogic(p).dBubble && !PipeLogic(p).dStall && (PipeLogic(p).eBubble || TakeSuspend(s).d == p.d)
    ensures var s', p' := Cycle(s), Cycle(p); SameBack(s', p') && s'.e == p'.e && s'.d == p'.d
    ensures AfterStageD(s).f == TakeSuspend(s).f && AfterStageD(s).mem == AfterStageD(p).mem
    ensures AfterStageD(s).m == AfterStageD(p).m && AfterStageD(s).w == AfterStageD(p).w
  {
    var c, c' := PipeLogic(p), PipeLogic(s);
    var t := TakeSuspend(s);
    StageWIgnoresFront(p, t.d, t.f, t.savedPC);
    StageMIgnoresFront(c, StageW(p), t.d, t.f, t.savedPC);
    SameControl(c, c', StageW(t));
    Frames(p);
    FrameW(p);
    FrameM(c, StageW(p));
    StageEAlike(c, StageM(c, StageW(p)), t.d, t.f, t.savedPC);
    StageDAlike(c, AfterStageE(s), AfterStageE(p));
    FrameE(c, StageM(c, StageW(t)));
    FrameD(c, AfterStageE(s));
    FrameF(c', AfterStageD(s));
    CycleIsF(s);
    hide PipeLogic, StageW, StageM, StageE, StageD, StageF;
  }

  lemma StageEAlike(c: Control, r: Pipe, d: DecodeReg, f: FetchReg, q: seq<int>)
    requires d == r.d.(stat := d.stat) && (c.eBubble || d == r.d)
    ensures var s', r' := StageE(c, Front(r, d, f, q)), StageE(c, r); s' == Front(r', d, f, s'.savedPC)
  {
    hide AluA, AluB, AluFun, AluCalc, AluCC, GetCnd, SetsCC;
  }

  lemma StageDAlike(c: Control, q: Pipe, r: Pipe)
    requires c.dBubble && !c.dStall && q.d == r.d.(stat := q.d.stat)
    ensures StageD(c, q).d == StageD(c, r).d
  {
  }

  /** With nothing in E and D, F may be any fetch of the right instruction. */
  lemma AnyFetch(p: Pipe, a: Isa, g: FetchReg, q: seq<int>)
    requires Inv(p, a) && S.SafeFrom(a) && a.stat == SAOK && AfterM(p, a).stat == SAOK && AfterE(p, a).stat == SAOK
    requires Empty(p.e.stat, p.e.icode) && EmptyD(p.d) && p.m.icode != IRET
    requires Fetched(g, AfterE(p, a)) && !Empty(g.stat, g.icode) && g.stat != SSPD
    ensures var r := p.(f := g, savedPC := q); RightInF(r, a) && AfterD(r, a) == AfterE(p, a)
  {
    var r := p.(f := g, savedPC := q);
    assert AfterM(r, a) == AfterM(p, a) && AfterE(r, a) == AfterE(p, a);
    hide S.Step, S.Execute, FetchWith, S.SafeFrom, MemorySlot, ExecuteSlot, Operands, Fetched, Decoded;
  }

  /** When F comes back to the right path, it holds the instruction there, marked if the request is still there and the
      instruction completes by itself; otherwise the pipeline is in step, as if nobody had asked. */
  lemma ComesBack(s: Pipe, p: Pipe, a: Isa) returns (r: Pipe)
    requires Inv(p, a) && S.SafeFrom(a) && a.stat == SAOK && AfterM(p, a).stat == SAOK && AfterE(p, a).stat == SAOK
    requires Redirects(p) && Alike(s, p) && (p.m.icode == IRET ==> TakeSuspend(s).d == p.d)
    requires TakeSuspend(s).f.imemError ==> !InRange(AfterE(p, a).pc)
    ensures RightInF(r, AfterM(p, a)) && AfterD(r, AfterM(p, a)) == AfterE(p, a)
    ensures MarkedF(Cycle(s), r, AfterM(p, a)) || Cycle(s) == r
    ensures !LoadUse(r.e, r.d)
  {
    hide S.Step, S.Execute, FetchWith, FetchAt, S.SafeFrom, MemorySlot, ExecuteSlot, Cycle, PipeLogic, Alike, Fetched,
         BehindE, LatchF;
    var s', p' := Cycle(s), Cycle(p);
    var a', b := AfterM(p, a), AfterE(p, a);
    RedirectSignals(p, a);
    RedirectStages(s, p);
    CycleKeepsInv(p, a);
    SafeAfter(p, a);
    BackEnd(p, a);
    Emptied(p, a);
    RedirectPC(s, p, a);
    Consumed(s);
    var ins := FetchAt(b.mem, b.pc);
    FetchesRight(TakeSuspend(s).f, b, s'.f.predPC);
    var g := s'.f.(stat := ins.stat);
    FetchRegs(b.mem, b.pc, !InRange(b.pc));
    NeverEmpty(b.mem, b.pc);
    FetchedStat(g, b);
    r := p'.(f := g, savedPC := s'.savedPC);
    AnyFetch(p', a', g, s'.savedPC);
    SameAll(s', p', g);
  }

  lemma SameAll(s: Pipe, p: Pipe, g: FetchReg)
    requires SameBack(s, p) && s.e == p.e && s.d == p.d && g == s.f.(stat := g.stat) && !p.suspend
    ensures var r := p.(f := g, savedPC := s.savedPC);
      s == r.(f := s.f) && SameBack(s, r) && (s.f.stat == g.stat ==> s == r)
  {
  }

  lemma NeverEmpty(mem: Memory, pc: int)
    ensures var ins := FetchAt(mem, pc); !Empty(ins.stat, ins.icode) && ins.stat != SSPD
  {
    FetchRegs(mem, pc, !InRange(pc));
    hide FetchWith;
  }

  lemma FetchedStat(g: FetchReg, b: Isa)
    requires Fetched(g, b)
    ensures g.icode == FetchAt(b.mem, b.pc).icode && g.stat == FetchAt(b.mem, b.pc).stat
  {
    hide FetchWith;
  }

  lemma RedirectSignals(p: Pipe, a: Isa)
    requires Inv(p, a) && S.SafeFrom(a) && a.stat == SAOK && AfterM(p, a).stat == SAOK && AfterE(p, a).stat == SAOK
    requires Redirects(p)
    ensures var c := PipeLogic(p); c.dBubble && !c.dStall && (c.eBubble || p.m.icode == IRET) && !p.suspend
    ensures p.m.icode == IRET ==> !Mispredicted(p.e) && Empty(p.e.stat, p.e.icode) && EmptyD(p.d)
    ensures S.PathOK(Source(p, a))
  {
    SafeAhead(p, a);
    hide S.Step, S.Execute, FetchWith, S.SafeFrom, MemorySlot, ExecuteSlot, S.Plain, S.LeaveOK, S.PathOK, S.WrongPathOK;
  }

  /** After the redirect nothing is in E and D, and M holds no ret. */
  lemma Emptied(p: Pipe, a: Isa)
    requires Inv(p, a) && S.SafeFrom(a) && a.stat == SAOK && AfterM(p, a).stat == SAOK && AfterE(p, a).stat == SAOK
    requires Redirects(p)
    ensures var p' := Cycle(p); var a' := AfterM(p, a);
      && Empty(p'.e.stat, p'.e.icode) && EmptyD(p'.d) && p'.m.icode != IRET && !LoadUse(p'.e, p'.d) && !p'.suspend
      && AfterM(p', a') == AfterE(p, a) && AfterE(p', a') == AfterE(p, a)
  {
    hide S.Step, S.Execute, FetchWith, S.SafeFrom, MemorySlot, ExecuteSlot, Cycle, PipeLogic, BehindE;
    RedirectSignals(p, a);
    Frames(p);
    BackEnd(p, a);
    BubbleD(PipeLogic(p), AfterStageE(p));
    if p.m.icode == IRET && !PipeLogic(p).eBubble {
      EmptyEntersE(PipeLogic(p), AfterStageM(p));
    } else {
      BubbleE(PipeLogic(p), AfterStageM(p));
    }
  }

  /** F fetches at the right address in both. */
  lemma RedirectPC(s: Pipe, p: Pipe, a: Isa)
    requires Inv(p, a) && S.SafeFrom(a) && a.stat == SAOK && AfterM(p, a).stat == SAOK && AfterE(p, a).stat == SAOK
    requires Redirects(p) && Alike(s, p) && (p.m.icode == IRET ==> TakeSuspend(s).d == p.d)
    requires TakeSuspend(s).f.imemError ==> !InRange(AfterE(p, a).pc)
    ensures var f := Cycle(s).f; var b := AfterE(p, a);
      f == LatchF(TakeSuspend(s).f, FetchAt(b.mem, b.pc), f.predPC, b.pc)
  {
    hide S.Step, S.Execute, FetchWith, S.SafeFrom, MemorySlot, ExecuteSlot, PipeLogic, BehindE, LatchF, Alike, S.Plain,
         S.PathOK, S.LeaveOK;
    RedirectSignals(p, a);
    RedirectStages(s, p);
    SafeAhead(p, a);
    Frames(p);
    BackEnd(p, a);
    CycleIsF(s);
    var c := PipeLogic(s);
    var predPC := FetchPredPC(c, TakeSuspend(s).f);
    RedirectTo(p, a, predPC);
    hide StageW, StageM, StageE, StageD, Cycle;
    FetchIs(c, AfterStageD(s), AfterE(p, a));
  }

  lemma RedirectTo(p: Pipe, a: Isa, predPC: int)
    requires Inv(p, a) && S.SafeFrom(a) && a.stat == SAOK && AfterM(p, a).stat == SAOK && AfterE(p, a).stat == SAOK
    requires Redirects(p)
    ensures SelectPC(AfterStageD(p).m, AfterStageD(p).w, predPC) == AfterE(p, a).pc
  {
    SafeAhead(p, a);
    NotBehindLeave(p, a);
    Redirection(p, a, predPC);
    RedirectSignals(p, a);
    hide S.Step, S.Execute, FetchWith, S.SafeFrom, MemorySlot, ExecuteSlot, PipeLogic, BehindE, S.Plain, StageW, StageM,
         StageE, StageD, StageF, SelectPC;
  }

  lemma FetchIs(c: Control, q: Pipe, b: Isa)
    requires SelectPC(q.m, q.w, FetchPredPC(c, q.f)) == b.pc && q.mem == b.mem
    requires q.f.imemError ==> !InRange(b.pc)
    ensures var f := StageF(c, q).f; f == LatchF(q.f, FetchAt(b.mem, b.pc), f.predPC, b.pc)
  {
    hide FetchWith, SelectPC;
  }

  // ---------- from the request to the end ----------

  /** The core has stopped behind the instruction at c, with the state it leaves, or is in step at c and goes on. */
  ghost predicate Settled(q: Pipe, c: Isa) {
    || Inv(q, c)
    || (var b := S.Step(c); q.reg == b.reg && q.mem == b.mem && q.cc == b.cc && q.stat == SuspendedStat(c))
  }

  /** Everything up to the instruction in E completes, and the program meets the guard. */
  ghost predicate Alive(p: Pipe, a: Isa) {
    Inv(p, a) && S.SafeFrom(a) && a.stat == SAOK && AfterM(p, a).stat == SAOK && AfterE(p, a).stat == SAOK
  }

  lemma FlagMeans(p: Pipe, a: Isa)
    requires Alive(p, a) && Redirects(p) && p.f.imemError
    ensures !InRange(AfterE(p, a).pc)
  {
    SafeAhead(p, a);
    RedirectSignals(p, a);
    hide S.Execute, S.Step, FetchWith, MemorySlot, PlainAhead, S.WrongPathOK, S.SafeFrom, S.LeaveOK, PipeLogic;
  }

  lemma FromRedirect(s: Pipe, p: Pipe, a: Isa) returns (n: nat, c: Isa)
    requires Alive(p, a) && Redirects(p) && Alike(s, p) && (p.m.icode == IRET ==> TakeSuspend(s).d == p.d)
    requires TakeSuspend(s).f.imemError ==> !InRange(AfterE(p, a).pc)
    ensures 1 <= n <= 6 && Settled(Run(s, n), c) && (c == AfterM(p, a) || c == AfterE(p, a))
  {
    hide Cycle, MarkedF, RightInF, AfterE, AfterM, AfterD, S.SafeFrom, LoadUse, Alike, TakeSuspend, SuspendedStat,
         S.Step, Redirects, Inv;
    var r := ComesBack(s, p, a);
    if Cycle(s) == r {
      n, c := 1, AfterM(p, a);
      assert Run(s, 1) == Run(Cycle(s), 0);
      InStep(r, AfterM(p, a));
    } else {
      n := MarkedFStops(Cycle(s), r, AfterM(p, a));
      c := AfterE(p, a);
      n := n + 1;
      assert Run(s, n) == Run(Cycle(s), n - 1);
    }
  }

  lemma InStep(r: Pipe, a: Isa)
    requires RightInF(r, a)
    ensures Inv(r, a)
  {
    hide Inv, S.SafeFrom, S.NotTaken;
  }

  lemma RequestedAlike(s: Pipe, p: Pipe)
    requires Requested(s, p) && !p.suspend
    ensures Alike(s, p) && TakeSuspend(s).d == p.d && TakeSuspend(s).f.imemError == p.f.imemError
  {
    hide LoadUse, RetInFlight, Mispredicted;
  }

  lemma NoRequestYet(p: Pipe, a: Isa)
    requires Inv(p, a)
    ensures !p.suspend && p.f.stat != SSPD
  {
    hide Running, Stopped;
  }

  /** A ret in E: F waits behind it for one more cycle. */
  lemma FromReturnE(s: Pipe, p: Pipe, a: Isa) returns (n: nat, c: Isa)
    requires Alive(p, a) && p.e.icode == IRET && p.m.icode != IRET && Requested(s, p)
    ensures 1 <= n <= 7 && Settled(Run(s, n), c) && (c == AfterM(p, a) || c == AfterE(p, a))
  {
    hide Cycle, AfterE, AfterM, AfterD, S.SafeFrom, Alike, TakeSuspend, SuspendedStat, S.Step, Inv, PipeLogic,
         Requested;
    NoRequestYet(p, a);
    var s', r := Cycle(s), Cycle(p).(savedPC := Cycle(s).savedPC);
    ReturnMovesOn(p, a);
    HeldBehind(p, s);
    AnyQueue(Cycle(p), AfterM(p, a), s'.savedPC);
    if s' == r {
      n, c := 1, AfterM(p, a);
      assert Run(s, 1) == Run(Cycle(s), 0);
    } else {
      StillAlive(p, a, s'.savedPC);
      assert Requested(s', r) by { MarkIsRequest(s', r); }
      RequestedAlike(s', r);
      if r.f.imemError {
        FlagMeans(r, AfterM(p, a));
      }
      n, c := FromRedirect(s', r, AfterM(p, a));
      n := n + 1;
      assert Run(s, n) == Run(Cycle(s), n - 1);
    }
  }

  lemma MarkIsRequest(s: Pipe, r: Pipe)
    requires s == r.(f := Mark(r.f))
    ensures Requested(s, r)
  {
  }

  /** The ret moves to M. */
  lemma ReturnMovesOn(p: Pipe, a: Isa)
    requires Alive(p, a) && p.e.icode == IRET && p.m.icode != IRET
    ensures var c := PipeLogic(p); c.dBubble && !c.dStall && c.fStall
    ensures var p' := Cycle(p); var a' := AfterM(p, a);
      && Inv(p', a') && S.SafeFrom(a') && Redirects(p')
      && AfterM(p', a') == AfterE(p, a) && AfterE(p', a') == AfterE(p, a)
      && !p'.suspend
  {
    hide S.Step, S.Execute, FetchWith, S.SafeFrom, MemorySlot, ExecuteSlot, Cycle;
    CycleKeepsInv(p, a);
    SafeAfter(p, a);
    BackEnd(p, a);
    Frames(p);
    ReturnInE(p, a);
    EmptyEntersE(PipeLogic(p), AfterStageM(p));
  }

  lemma ReturnInE(p: Pipe, a: Isa)
    requires Alive(p, a) && p.e.icode == IRET && p.m.icode != IRET
    ensures EmptyD(p.d) && !PipeLogic(p).eBubble && !LoadUse(p.e, p.d) && !p.suspend
  {
    hide S.Step, S.Execute, FetchWith, S.SafeFrom, MemorySlot, ExecuteSlot;
  }

  lemma StillAlive(p: Pipe, a: Isa, q: seq<int>)
    requires var p' := Cycle(p); var a' := AfterM(p, a);
      && Inv(p', a') && S.SafeFrom(a') && a'.stat == SAOK && AfterM(p', a').stat == SAOK && AfterE(p', a').stat == SAOK
    ensures var r := Cycle(p).(savedPC := q); var a' := AfterM(p, a);
      && Alive(r, a') && AfterM(r, a') == AfterM(Cycle(p), a') && AfterE(r, a') == AfterE(Cycle(p), a')
      && (Redirects(Cycle(p)) ==> Redirects(r))
  {
    AnyQueue(Cycle(p), AfterM(p, a), q);
    hide Inv, S.SafeFrom, S.Step, Cycle;
  }

  /** A ret in D: F waits behind it, first perhaps for the load that the ret waits for. */
  lemma FromReturnD(s: Pipe, p: Pipe, a: Isa) returns (n: nat, c: Isa)
    requires Straight(p, a) && p.d.icode == IRET && AfterD(p, a).stat == SAOK && Requested(s, p)
    ensures 1 <= n <= 9 && (!LoadUse(p.e, p.d) ==> n <= 8) && Settled(Run(s, n), c)
    ensures c in {AfterM(p, a), AfterE(p, a), AfterD(p, a)}
    decreases LoadUse(p.e, p.d)
  {
    hide Cycle, AfterE, AfterM, AfterD, S.SafeFrom, Alike, TakeSuspend, SuspendedStat, S.Step, Inv, PipeLogic,
         Requested, LoadUse, Straight;
    AliveStraight(p, a);
    NoRequestYet(p, a);
    var a' := AfterM(p, a);
    var s', r := Cycle(s), Cycle(p).(savedPC := Cycle(s).savedPC);
    ReturnDSignals(p, a);
    HeldBehind(p, s);
    KeepsStep(p, a, s'.savedPC);
    if s' == r {
      n, c := 1, a';
      assert Run(s, 1) == Run(Cycle(s), 0);
    } else {
      MarkIsRequest(s', r);
      if LoadUse(p.e, p.d) {
        ReturnWaits(p, a, s'.savedPC);
        n, c := FromReturnD(s', r, a');
      } else {
        ReturnLeaves(p, a, s'.savedPC);
        n, c := FromReturnE(s', r, a');
      }
      n := n + 1;
      assert Run(s, n) == Run(Cycle(s), n - 1);
    }
  }

  lemma AliveStraight(p: Pipe, a: Isa)
    requires Straight(p, a)
    ensures Alive(p, a) && p.e.icode != IRET && p.m.icode != IRET && !Mispredicted(p.e)
  {
    hide Inv, S.SafeFrom;
  }

  lemma KeepsStep(p: Pipe, a: Isa, q: seq<int>)
    requires Alive(p, a)
    ensures Inv(Cycle(p), AfterM(p, a)) && S.SafeFrom(AfterM(p, a)) && Inv(Cycle(p).(savedPC := q), AfterM(p, a))
    ensures AfterM(Cycle(p), AfterM(p, a)) == AfterE(p, a)
  {
    CycleKeepsInv(p, a);
    SafeAfter(p, a);
    AnyQueue(Cycle(p), AfterM(p, a), q);
    BackEndOf(p, a);
    hide Inv, S.SafeFrom, Cycle, S.Step;
  }

  lemma ReturnDSignals(p: Pipe, a: Isa)
    requires Straight(p, a) && p.d.icode == IRET
    ensures var c := PipeLogic(p); c.fStall && c.dStall == LoadUse(p.e, p.d) && c.dBubble == !LoadUse(p.e, p.d)
    ensures PipeLogic(p).eBubble == LoadUse(p.e, p.d) && !p.suspend && !BehindLeave(p)
  {
    SafeAhead(p, a);
    NotBehindLeave(p, a);
    hide S.SafeFrom, LoadUse;
  }

  lemma ReturnWaits(p: Pipe, a: Isa, q: seq<int>)
    requires Straight(p, a) && p.d.icode == IRET && AfterD(p, a).stat == SAOK && LoadUse(p.e, p.d)
    ensures var r := Cycle(p).(savedPC := q); var a' := AfterM(p, a);
      && Straight(r, a') && r.d.icode == IRET && AfterD(r, a') == AfterD(p, a) && AfterE(r, a') == AfterE(p, a)
      && AfterM(r, a') == AfterE(p, a) && !LoadUse(r.e, r.d)
  {
    ReturnDSignals(p, a);
    WaitsInD(p, a);
    KeepsStep(p, a, q);
    WaitsD(p, a);
    hide Inv, S.SafeFrom, Cycle, S.Step, LoadUse;
  }

  lemma WaitsD(p: Pipe, a: Isa)
    requires Straight(p, a) && LoadUse(p.e, p.d) && !BehindLeave(p)
    ensures Cycle(p).d.stat == p.d.stat && Cycle(p).d.icode == p.d.icode && Alive(p, a)
  {
    WaitsInD(p, a);
    hide Inv, S.SafeFrom, Cycle;
  }

  lemma ReturnLeaves(p: Pipe, a: Isa, q: seq<int>)
    requires Straight(p, a) && p.d.icode == IRET && AfterD(p, a).stat == SAOK && !LoadUse(p.e, p.d)
    ensures var r := Cycle(p).(savedPC := q); var a' := AfterM(p, a);
      && Alive(r, a') && r.e.icode == IRET && r.m.icode != IRET
      && AfterM(r, a') == AfterE(p, a) && AfterE(r, a') == AfterD(p, a)
  {
    hide S.Step, S.Execute, FetchWith, S.SafeFrom, MemorySlot, ExecuteSlot, Cycle, BehindE, S.Plain;
    AliveStraight(p, a);
    ReturnDSignals(p, a);
    KeepsStep(p, a, q);
    SafeAhead(p, a);
    BackEnd(p, a);
    NormalE(p, a);
    StillAlive(p, a, q);
  }

  /** A branch in D that will not be taken: the wrong path goes on for one cycle. */
  lemma FromBranchD(s: Pipe, p: Pipe, a: Isa) returns (n: nat, c: Isa)
    requires Straight(p, a) && !Empty(p.d.stat, p.d.icode) && S.NotTaken(AfterE(p, a)) && AfterD(p, a).stat == SAOK
    requires s == p.(suspend := true)
    ensures 1 <= n <= 7 && Settled(Run(s, n), c) && c in {AfterM(p, a), AfterE(p, a), AfterD(p, a)}
  {
    hide Cycle, AfterE, AfterM, AfterD, S.SafeFrom, TakeSuspend, SuspendedStat, S.Step, Inv, PipeLogic, LoadUse,
         Straight, S.NotTaken, Redirects, Alike, Alive, Settled, InRange, Empty;
    BranchGoesOn(s, p, a);
    n, c := FromRedirect(Cycle(s), Cycle(p), AfterM(p, a));
    n := n + 1;
    assert Run(s, n) == Run(Cycle(s), n - 1);
  }

  lemma BranchGoesOn(s: Pipe, p: Pipe, a: Isa)
    requires Straight(p, a) && !Empty(p.d.stat, p.d.icode) && S.NotTaken(AfterE(p, a)) && AfterD(p, a).stat == SAOK
    requires s == p.(suspend := true)
    ensures var s', p' := Cycle(s), Cycle(p); var a' := AfterM(p, a);
      && Alive(p', a') && Redirects(p') && Alike(s', p') && p'.m.icode != IRET
      && (TakeSuspend(s').f.imemError ==> !InRange(AfterE(p', a').pc))
      && AfterM(p', a') == AfterE(p, a) && AfterE(p', a') == AfterD(p, a)
  {
    hide Cycle, AfterE, AfterM, AfterD, S.SafeFrom, TakeSuspend, SuspendedStat, S.Step, Inv, PipeLogic, LoadUse,
         Straight, S.NotTaken, Redirects, Alike, Alive;
    BranchSignals(p, a);
    MarkedStages(p, s);
    BranchLeaves(p, a);
    BranchAlike(Cycle(s), Cycle(p));
    BranchFlag(s, p, a);
  }

  lemma BranchSignals(p: Pipe, a: Isa)
    requires Straight(p, a) && !Empty(p.d.stat, p.d.icode) && S.NotTaken(AfterE(p, a))
    ensures Flowing(p, a) && p.d.icode == IJXX && !PipeLogic(p).dBubble && !PipeLogic(p).dStall && !p.suspend
    ensures !p.f.imemError ==> InRange(p.f.predPC)
    ensures p.f.imemError ==> !S.WrongPathOK(AfterE(p, a).mem, AfterE(p, a)) || AfterD(p, a).stat != SAOK
  {
    RightDecode(p, a);
    SafeAhead(p, a);
    NotBehindLeave(p, a);
    BranchInD(p, a);
    NoLoad(p, a);
    hide S.SafeFrom, S.Plain, FetchWith, S.Step, S.WrongPathOK, Inv;
  }

  lemma BranchInD(p: Pipe, a: Isa)
    requires Straight(p, a) && !Empty(p.d.stat, p.d.icode) && S.NotTaken(AfterE(p, a))
    ensures p.d.icode == IJXX && p.d.srcA == RNONE && p.d.srcB == RNONE
  {
    RightDecode(p, a);
    hide Inv, S.SafeFrom, FetchWith, BehindD, Operands;
  }

  lemma BranchLeaves(p: Pipe, a: Isa)
    requires Straight(p, a) && !Empty(p.d.stat, p.d.icode) && S.NotTaken(AfterE(p, a)) && AfterD(p, a).stat == SAOK
    ensures var p' := Cycle(p); var a' := AfterM(p, a);
      && Alive(p', a') && Mispredicted(p'.e) && Redirects(p') && p'.m.icode != IRET && AfterE(p', a') == AfterD(p, a)
      && AfterM(p', a') == AfterE(p, a) && S.PathOK(AfterE(p, a)) && S.Step(AfterE(p, a)) == AfterD(p, a) && !p'.suspend
  {
    hide S.Step, S.Execute, FetchWith, S.SafeFrom, MemorySlot, ExecuteSlot, Cycle, BehindE, S.Plain, S.NotTaken,
         S.PathOK;
    AliveStraight(p, a);
    BranchSignals(p, a);
    KeepsStep(p, a, []);
    BackEnd(p, a);
    NormalE(p, a);
    SafeAhead(p, a);
    S.SafeFromStep(AfterM(p, a));
    S.SafeFromStep(AfterE(p, a));
    SafeTwice(p, a);
  }

  lemma SafeTwice(p: Pipe, a: Isa)
    requires S.SafeFrom(a) && AfterE(p, a).stat == SAOK
    ensures S.PathOK(AfterE(p, a))
  {
    S.SafeFromStep(a);
    S.SafeFromStep(AfterM(p, a));
    S.SafeFromStep(AfterE(p, a));
    hide S.Tame, S.PathOK, S.Step, S.SafeFrom;
  }

  lemma BranchAlike(s: Pipe, p: Pipe)
    requires SameBack(s, p) && s.e == p.e && s.d == p.d.(stat := SSPD) && !p.suspend
    ensures Alike(s, p) && TakeSuspend(s) == s
  {
  }

  /** The fetch that is repeated goes out of range only if the wrong path does, and then the right one is, too. */
  lemma BranchFlag(s: Pipe, p: Pipe, a: Isa)
    requires Straight(p, a) && !Empty(p.d.stat, p.d.icode) && S.NotTaken(AfterE(p, a)) && AfterD(p, a).stat == SAOK
    requires s == p.(suspend := true)
    ensures Cycle(s).f.imemError ==> !InRange(AfterD(p, a).pc)
  {
    hide S.Step, S.Execute, FetchWith, S.SafeFrom, MemorySlot, ExecuteSlot, Cycle, BehindE, S.Plain, S.NotTaken,
         S.WrongPathOK, StageW, StageM, StageE, StageD, PipeLogic;
    BranchSignals(p, a);
    BranchLeaves(p, a);
    MarkedStages(p, s);
    CycleIsF(s);
    NotRedirected(p, a);
    FetchFields(PipeLogic(s), AfterStageD(s));
  }

  lemma NotRedirected(p: Pipe, a: Isa)
    requires Flowing(p, a)
    ensures SelectPC(AfterStageD(p).m, AfterStageD(p).w, p.f.predPC) == p.f.predPC
  {
    Redirection(p, a, p.f.predPC);
    hide Inv, S.Plain, S.Step;
  }

  // ---------- any request ----------

  /** A request that comes at any time when everything up to E completes, and what D holds on the right path does, too,
      and F holds some instruction: within ten cycles the core has either stopped precisely behind one instruction of the
      program, the one that follows what is in M, in E or in D, with status SSPD or that instruction's own fault, or the
      request is lost, and the pipeline is in step with the sequential machine as if nobody had asked. */
  lemma AnyRequest(p: Pipe, a: Isa) returns (n: nat, c: Isa)
    requires Alive(p, a) && !Empty(p.f.stat, p.f.icode) && (Straight(p, a) ==> AfterD(p, a).stat == SAOK)
    ensures 1 <= n <= 10 && Settled(Run(p.(suspend := true), n), c)
    ensures c in {AfterM(p, a), AfterE(p, a), AfterD(p, a)}
  {
    hide Cycle, AfterE, AfterM, AfterD, S.SafeFrom, TakeSuspend, SuspendedStat, S.Step, Inv, PipeLogic, LoadUse,
         Straight, S.NotTaken, Alike, Requested, RightInF;
    var s := p.(suspend := true);
    NoRequestYet(p, a);
    assert Requested(s, p) by { AskedIsRequest(p); }
    RequestedAlike(s, p);
    if Mispredicted(p.e) || p.m.icode == IRET {
      if p.f.imemError {
        FlagMeans(p, a);
      }
      n, c := FromRedirect(s, p, a);
    } else if p.e.icode == IRET {
      n, c := FromReturnE(s, p, a);
    } else {
      IsStraight(p, a);
      if p.d.icode == IRET {
        n, c := FromReturnD(s, p, a);
      } else if !Empty(p.d.stat, p.d.icode) && S.NotTaken(AfterE(p, a)) {
        n, c := FromBranchD(s, p, a);
      } else {
        n, c := FromRight(p, a);
      }
    }
  }

  lemma AskedIsRequest(p: Pipe)
    ensures Requested(p.(suspend := true), p)
  {
  }

  lemma IsStraight(p: Pipe, a: Isa)
    requires Alive(p, a) && !Mispredicted(p.e) && p.e.icode != IRET && p.m.icode != IRET
    ensures Straight(p, a)
  {
    hide Inv, S.SafeFrom;
  }

  lemma FromRight(p: Pipe, a: Isa) returns (n: nat, c: Isa)
    requires Straight(p, a) && AfterD(p, a).stat == SAOK && p.d.icode != IRET && !Empty(p.f.stat, p.f.icode)
    requires Empty(p.d.stat, p.d.icode) || !S.NotTaken(AfterE(p, a))
    ensures 1 <= n <= 10 && Settled(Run(p.(suspend := true), n), c) && (c == AfterD(p, a) || c == AfterM(p, a))
  {
    hide Cycle, AfterE, AfterM, AfterD, S.SafeFrom, SuspendedStat, S.Step, Inv, PipeLogic, LoadUse, Straight,
         S.NotTaken;
    var s := p.(suspend := true);
    if p.f.stat == SAOK || !LoadUse(p.e, p.d) {
      n := SuspendsBehind(p, a);
      c := AfterD(p, a);
    } else {
      AskedIsRequest(p);
      NotSuspended(p, a);
      NothingSquashed(p, a);
      HeldBehind(p, s);
      AliveStraight(p, a);
      KeepsStep(p, a, Cycle(s).savedPC);
      StaysInF(p, a);
      RightIsFetched(p, a);
      RightIsFetched(Cycle(p), AfterM(p, a));
      n, c := 1, AfterM(p, a);
      assert Run(s, 1) == Run(Cycle(s), 0);
    }
  }
}
