/** Cores over paged memory: every process runs as if its pipeline were alone with a private memory, in whatever order
    the cores are stepped, however their pages are shared, and whatever forks and execs happen in between. */
module Machine {
  import opened Words
  import opened Pids
  import opened Paging
  import opened Isolation
  import opened ExecImage
  import opened PagedAccess
  import opened Y86
  import P = Pipeline
  import S = Sequential
  import PipelineProof

  // ---------- one core ----------

  datatype VmAccess = VmAccess(s: Space, m: Phys, val: int, err: bool)

  /** The access of stage M, through the page table. */
  function AccessVm(c: P.Control, e: P.ExecuteReg, s: Space, m: Phys): VmAccess {
    var addr := MemAddr(e.icode, e.valE, e.valA);
    if !c.mBubble && MemWrites(e.icode) then
      var w := WriteBytesVm(s, m, addr, e.valA, 4);
      VmAccess(w.s, w.m, 0, w.err)
    else if !c.mBubble && MemReads(e.icode) then
      var r := ReadBytesVm(s, m, addr, 4);
      VmAccess(r.s, m, if r.err then 0 else Wrap(r.val), r.err)
    else VmAccess(s, m, 0, false)
  }

  datatype VmFetch = VmFetch(ins: Instr, s: Space)

  /** The reads of stage F, through the page table: the first byte, then the register byte and the constant if the
      instruction has them. */
  function FetchVm(s: Space, m: Phys, pc: int, imemError: bool): VmFetch {
    var first := ReadByteVm(s, m, pc);
    var icode := IcodeOf(first.val, imemError);
    var regs := if NeedRegids(icode) then ReadByteVm(first.s, m, pc + 1) else VmRead(0, false, first.s);
    var constant := if NeedValC(icode) then ConstantVm(regs.s, m, ConstantAt(icode, pc), 4)
                    else VmRead(0, false, regs.s);
    VmFetch(InstrOf(pc, first.val, regs.val, constant.val, imemError), constant.s)
  }

  datatype VmCycle = VmCycle(p: P.Pipe, s: Space, m: Phys)

  /** The pipeline when stage F begins, after the memory access acc. */
  function BeforeFetch(p: P.Pipe, acc: VmAccess): P.Pipe {
    var c := P.PipeLogic(p);
    var w := P.StageW(P.TakeSuspend(p));
    P.StageD(c, P.StageE(c, w.(m := P.LatchM(c, w.e, w.m, acc.val, acc.err))))
  }

  function FetchPC(p: P.Pipe, q: P.Pipe): int {
    P.SelectPC(q.m, q.w, P.FetchPredPC(P.PipeLogic(p), q.f))
  }

  predicate FetchFault(q: P.Pipe, pc: int) {
    q.f.imemError || !InRange(pc)
  }

  /** One cycle of a core whose loads, stores and fetches all go through the page table. */
  ghost function PagedCycle(p: P.Pipe, s: Space, m: Phys): VmCycle {
    var acc := AccessVm(P.PipeLogic(p), p.e, s, m);
    var q := BeforeFetch(p, acc);
    var pc := FetchPC(p, q);
    var r := FetchVm(acc.s, acc.m, pc, FetchFault(q, pc));
    var f := P.LatchF(q.f, r.ins, P.FetchPredPC(P.PipeLogic(p), q.f), pc);
    VmCycle(P.AfterFetch(q.(mem := Visible(r.s, acc.m)), f), r.s, acc.m)
  }

  // ---------- the guard of a cycle ----------

  /** A load or fetch that hits no hole, and a store to bytes that may be written or lie in no area, with frames for the
      pages it copies. */
  ghost predicate AccessOK(c: P.Control, e: P.ExecuteReg, s: Space, m: Phys) {
    var addr := MemAddr(e.icode, e.valE, e.valA);
    && (!c.mBubble && MemWrites(e.icode) ==> MayStore(s, addr, 4) && Available(m.frames, 4))
    && (!c.mBubble && MemReads(e.icode) ==> NoHoles(s, m, addr, 4))
  }

  ghost predicate FetchOK(s: Space, m: Phys, pc: int, imemError: bool) {
    var icode := IcodeOf(ReadByte(Visible(s, m), pc), imemError);
    && !Hole(s, ToWord(pc))
    && (NeedRegids(icode) ==> !Hole(s, ToWord(pc + 1)))
    && (NeedValC(icode) ==> forall i :: ConstantAt(icode, pc) <= i < ConstantAt(icode, pc) + 4 ==> !Hole(s, ToWord(i)))
  }

  ghost predicate CycleOK(p: P.Pipe, s: Space, m: Phys) {
    var acc := AccessVm(P.PipeLogic(p), p.e, s, m);
    var q := BeforeFetch(p, acc);
    && AccessOK(P.PipeLogic(p), p.e, s, m)
    && FetchOK(acc.s, acc.m, FetchPC(p, q), FetchFault(q, FetchPC(p, q)))
  }

  // ---------- one cycle ----------

  /** A paged access is the access to the visible memory. */
  lemma AccessIsPrivate(sys: Sys, p: int, c: P.Control, e: P.ExecuteReg)
    requires Inv(sys) && p in sys.procs && AccessOK(c, e, sys.procs[p], sys.m)
    ensures var s := sys.procs[p]; var a := AccessVm(c, e, s, sys.m); var sys' := Sys(sys.procs[p := a.s], a.m);
      var x := S.AccessMem(e.icode, e.valE, e.valA, Visible(s, sys.m));
      && Inv(sys') && a.s.areas == s.areas
      && Visible(a.s, a.m) == (if c.mBubble then Visible(s, sys.m) else x.mem)
      && (!c.mBubble ==> a.val == x.val && a.err == x.err)
      && (forall q :: q in sys.procs && q != p ==> View(sys'.procs[q], a.m) == View(sys.procs[q], sys.m))
  {
    hide Inv, View, Visible, WriteBytesVm, ReadBytesVm, WriteBytes, ReadBytes, MayStore, NoHoles, Available;
    var s := sys.procs[p];
    var addr := MemAddr(e.icode, e.valE, e.valA);
    SameProcs(sys, p);
    if !c.mBubble && MemWrites(e.icode) {
      WordWriteRefines(sys, p, addr, e.valA, 4);
    } else if !c.mBubble && MemReads(e.icode) {
      WordRead(s, sys.m, addr, 4);
    }
  }

  /** A paged fetch is the fetch from the visible memory, and leaves the page table alone. */
  lemma FetchIsPrivate(s: Space, m: Phys, pc: int, imemError: bool)
    requires FetchOK(s, m, pc, imemError)
    ensures FetchVm(s, m, pc, imemError) == VmFetch(FetchWith(Visible(s, m), pc, imemError), s)
  {
    hide Visible, Hole, ReadByteVm, ReadByte, ReadBytes, ConstantVm;
    ByteRead(s, m, pc);
    var icode := IcodeOf(ReadByte(Visible(s, m), pc), imemError);
    if NeedRegids(icode) {
      ByteRead(s, m, pc + 1);
    }
    if NeedValC(icode) {
      ConstantRead(s, m, ConstantAt(icode, pc), 4);
    }
  }

  /** A paged cycle is a cycle of the pipeline on private memory, and no other process sees it. */
  lemma PagedIsPrivate(sys: Sys, p: int, pipe: P.Pipe)
    requires Inv(sys) && p in sys.procs && CycleOK(pipe, sys.procs[p], sys.m)
    requires pipe.mem == Visible(sys.procs[p], sys.m)
    ensures var v := PagedCycle(pipe, sys.procs[p], sys.m); var sys' := Sys(sys.procs[p := v.s], v.m);
      && v.p == P.Cycle(pipe) && v.p.mem == Visible(v.s, v.m)
      && Inv(sys') && v.s.areas == sys.procs[p].areas
      && (forall q :: q in sys.procs && q != p ==> View(sys'.procs[q], v.m) == View(sys.procs[q], sys.m))
  {
    hide Inv, View, Visible, AccessVm, FetchVm, AccessOK, FetchOK, BeforeFetch, P.LatchF, FetchWith, P.PipeLogic,
         P.SelectPC, P.Cycle;
    var c := P.PipeLogic(pipe);
    var s := sys.procs[p];
    AccessIsPrivate(sys, p, c, pipe.e);
    var acc := AccessVm(c, pipe.e, s, sys.m);
    var mem := Visible(acc.s, acc.m);
    var q := BeforeFetch(pipe, acc);
    FetchIsPrivate(acc.s, acc.m, FetchPC(pipe, q), FetchFault(q, FetchPC(pipe, q)));
    CycleParts(pipe, acc, mem);
  }

  /** A cycle is the stages before the fetch, on any memory that agrees with the access, and the fetch. */
  lemma CycleParts(p: P.Pipe, acc: VmAccess, mem: Memory)
    requires var c := P.PipeLogic(p); var x := S.AccessMem(p.e.icode, p.e.valE, p.e.valA, p.mem);
      mem == (if c.mBubble then p.mem else x.mem) && (!c.mBubble ==> acc.val == x.val && acc.err == x.err)
    ensures P.Cycle(p) == P.StageF(P.PipeLogic(p), BeforeFetch(p, acc).(mem := mem))
  {
    hide S.AccessMem, P.PipeLogic, P.StageW, P.StageE, P.StageD, P.StageF;
    var c := P.PipeLogic(p);
    var w := P.StageW(P.TakeSuspend(p));
    P.FrameW(P.TakeSuspend(p));
    var x := S.AccessMem(p.e.icode, p.e.valE, p.e.valA, p.mem);
    var m := P.LatchM(c, w.e, w.m, acc.val, acc.err);
    assert m == P.LatchM(c, w.e, w.m, x.val, x.err);
    assert P.StageM(c, w) == w.(m := m, mem := mem);
    hide P.LatchM, P.StageM;
    ExecuteIgnoresMemory(c, w.(m := m), mem);
    DecodeIgnoresMemory(c, P.StageE(c, w.(m := m)), mem);
  }

  /** Stages E and D do not look at memory. */
  lemma ExecuteIgnoresMemory(c: P.Control, p: P.Pipe, mem: Memory)
    ensures P.StageE(c, p.(mem := mem)) == P.StageE(c, p).(mem := mem)
  {
    hide AluA, AluB, AluFun, AluCalc, AluCC, GetCnd;
  }

  lemma DecodeIgnoresMemory(c: P.Control, p: P.Pipe, mem: Memory)
    ensures P.StageD(c, p.(mem := mem)) == P.StageD(c, p).(mem := mem)
  {
    hide P.Forward;
  }

  // ---------- the machine ----------

  /** All processes: their address spaces over one memory, and the pipelines of those that are on a core. */
  datatype Cores = Cores(sys: Sys, pipes: map<int, P.Pipe>)

  /** What happens on the machine: a core is stepped, or the kernel forks a process, gives it a new image, puts it on
      a core or takes it off. */
  datatype Event =
    | Clock(pid: int)
    | Fork(pid: int)
    | Exec(pid: int, elf: Elf)
    | Start(pid: int, pc: int, reg: Registers)
    | Stop(pid: int)

  ghost function Step(k: Cores, ev: Event): Cores
    requires EventOK(k, ev)
  {
    var s := k.sys.procs[ev.pid];
    match ev
    case Clock(p) =>
      var v := PagedCycle(k.pipes[p], s, k.sys.m);
      Cores(Sys(k.sys.procs[p := v.s], v.m), k.pipes[p := v.p])
    case Fork(p) =>
      var t := ForkSpace(s);
      k.(sys := k.sys.(procs := k.sys.procs[p := t][NewPid(k.sys.procs.Keys) := t]))
    case Exec(p, elf) =>
      var v := ExecSpace(s, k.sys.m, elf);
      Cores(Sys(k.sys.procs[p := v.s], v.m), k.pipes - {p})
    case Start(p, pc, reg) =>
      k.(pipes := k.pipes[p := P.Reset(pc, reg, Visible(s, k.sys.m))])
    case Stop(p) =>
      k.(pipes := k.pipes - {p})
  }

  /** The guards of the events. */
  ghost predicate EventOK(k: Cores, ev: Event) {
    ev.pid in k.sys.procs &&
    match ev
    case Clock(p) => p in k.pipes && CycleOK(k.pipes[p], k.sys.procs[p], k.sys.m)
    case Fork(p) => ForkOK(k.sys.procs[p])
    case Exec(p, elf) => ExecOK(k.sys, p, elf)
    case Start(_, _, _) => true
    case Stop(_) => true
  }

  /** The memory in each pipeline's state is what its process sees. */
  ghost predicate Good(k: Cores) {
    && Inv(k.sys)
    && forall p :: p in k.pipes ==> p in k.sys.procs && k.pipes[p].mem == Visible(k.sys.procs[p], k.sys.m)
  }

  /** The event may change what process p's pipeline does only by stepping it. */
  predicate LeavesRunning(ev: Event, p: int) {
    ev.pid == p ==> ev.Clock? || ev.Fork?
  }

  function After(pipe: P.Pipe, ev: Event, p: int): P.Pipe {
    if ev == Clock(p) then P.Cycle(pipe) else pipe
  }

  /** Fork changes nothing that the parent sees, and the child sees the same. */
  lemma ForkKeepsVisible(s: Space, m: Phys)
    requires ForkOK(s) && GoodSpace(s, m)
    ensures Visible(ForkSpace(s), m) == Visible(s, m)
  {
    hide View, ProtAt, MarkAreas, Restrict, PageOf;
    ForkSpaceFacts(s, m);
    var t := ForkSpace(s);
    forall a ensures MayRead(t.areas, a) <==> MayRead(s.areas, a) {
      ForkProt(s.areas, a);
    }
    assert View(t, m) == View(s, m);
    assert forall a :: a in Visible(t, m) <==> a in Visible(s, m);
  }

  lemma SameVisible(s: Space, m: Phys, m': Phys)
    requires View(s, m') == View(s, m)
    ensures Visible(s, m') == Visible(s, m)
  {
  }

  lemma GoodSpaceOf(sys: Sys, p: int)
    requires Inv(sys) && p in sys.procs
    ensures GoodSpace(sys.procs[p], sys.m)
  {
  }

  /** An event keeps the machine good; the pipeline of a process is moved by its own clock only. */
  lemma StepIsPrivate(k: Cores, ev: Event)
    requires Good(k) && EventOK(k, ev)
    ensures Good(Step(k, ev))
    ensures forall p :: p in k.pipes && LeavesRunning(ev, p) ==>
              p in Step(k, ev).pipes && Step(k, ev).pipes[p] == After(k.pipes[p], ev, p)
  {
    hide Inv, View, Visible, ForkSpace, ExecSpace, PagedCycle, CycleOK, ForkOK, ExecOK, P.Cycle, NewPid, P.Reset;
    var s := k.sys.procs[ev.pid];
    match ev
    case Clock(p) => ClockIsPrivate(k, p);
    case Fork(p) =>
      ForkRefines(k.sys, p, NewPid(k.sys.procs.Keys));
      GoodSpaceOf(k.sys, p);
      ForkKeepsVisible(s, k.sys.m);
    case Exec(p, elf) => ExecIsPrivate(k, p, elf);
    case Start(p, pc, reg) => ResetMemory(pc, reg, Visible(s, k.sys.m));
    case Stop(p) =>
  }

  lemma ResetMemory(pc: int, reg: Registers, mem: Memory)
    ensures P.Reset(pc, reg, mem).mem == mem
  {
  }

  lemma ClockIsPrivate(k: Cores, p: int)
    requires Good(k) && EventOK(k, Clock(p))
    ensures Good(Step(k, Clock(p))) && Step(k, Clock(p)).pipes == k.pipes[p := P.Cycle(k.pipes[p])]
  {
    hide Inv, View, Visible, PagedCycle, CycleOK, P.Cycle;
    PagedIsPrivate(k.sys, p, k.pipes[p]);
    var v := PagedCycle(k.pipes[p], k.sys.procs[p], k.sys.m);
    forall q | q in k.pipes && q != p ensures Visible(k.sys.procs[q], v.m) == Visible(k.sys.procs[q], k.sys.m) {
      SameVisible(k.sys.procs[q], k.sys.m, v.m);
    }
  }

  lemma ExecIsPrivate(k: Cores, p: int, elf: Elf)
    requires Good(k) && EventOK(k, Exec(p, elf))
    ensures Good(Step(k, Exec(p, elf)))
  {
    hide Inv, View, Visible, ExecSpace, ExecOK, Views, ExecFlat;
    ExecRefines(k.sys, p, elf);
    var v := ExecSpace(k.sys.procs[p], k.sys.m, elf);
    var sys' := Sys(k.sys.procs[p := v.s], v.m);
    forall q | q in k.pipes && q != p ensures Visible(k.sys.procs[q], v.m) == Visible(k.sys.procs[q], k.sys.m) {
      ViewsAt(k.sys, q);
      ViewsAt(sys', q);
      SameVisible(k.sys.procs[q], k.sys.m, v.m);
    }
  }

  /** What the kernel's events do: a fork adds a process with the memory its parent sees, an exec gives a process
      exactly the image and takes it off its core, a start puts it on one, at the given PC, and a stop takes it off. */
  lemma EventEffects(k: Cores, ev: Event)
    requires Good(k) && EventOK(k, ev)
    ensures var r := Step(k, ev); var p := ev.pid;
      match ev
      case Clock(_) => r.pipes.Keys == k.pipes.Keys
      case Fork(_) =>
        var c := NewPid(k.sys.procs.Keys);
        && c !in k.sys.procs && r.sys.procs.Keys == k.sys.procs.Keys + {c} && r.pipes == k.pipes
        && Visible(r.sys.procs[c], r.sys.m) == Visible(k.sys.procs[p], k.sys.m)
      case Exec(_, elf) =>
        && p !in r.pipes && p in r.sys.procs
        && View(r.sys.procs[p], r.sys.m) == ExecFlat(View(k.sys.procs[p], k.sys.m), elf)
      case Start(_, pc, reg) =>
        r.sys == k.sys && p in r.pipes && r.pipes[p] == P.Reset(pc, reg, Visible(k.sys.procs[p], k.sys.m))
      case Stop(_) => r.sys == k.sys && p !in r.pipes
  {
    hide Inv, View, Visible, ForkSpace, ExecSpace, PagedCycle, CycleOK, ForkOK, ExecOK, NewPid, P.Reset, Views,
         ExecFlat;
    var p := ev.pid;
    match ev
    case Fork(_) =>
      GoodSpaceOf(k.sys, p);
      ForkKeepsVisible(k.sys.procs[p], k.sys.m);
    case Exec(_, elf) =>
      ExecRefines(k.sys, p, elf);
      ViewsAt(k.sys, p);
      ViewsAt(Step(k, ev).sys, p);
    case _ =>
  }

  // ---------- whole runs ----------

  ghost function Run(k: Cores, events: seq<Event>): Cores
    requires EventsOK(k, events)
    decreases |events|
  {
    if events == [] then k else Run(Step(k, events[0]), events[1..])
  }

  ghost predicate EventsOK(k: Cores, events: seq<Event>)
    decreases |events|
  {
    events == [] || (EventOK(k, events[0]) && EventsOK(Step(k, events[0]), events[1..]))
  }

  /** Process p stays on its core. */
  predicate StaysOn(events: seq<Event>, p: int) {
    forall i :: 0 <= i < |events| ==> LeavesRunning(events[i], p)
  }

  function Clocks(events: seq<Event>, p: int): nat {
    if events == [] then 0 else (if events[0] == Clock(p) then 1 else 0) + Clocks(events[1..], p)
  }

  /** In any order of the cores, with any forks, execs and context switches in between, the pipeline of a process that
      stays on its core, with registers, condition codes, status and memory, is that of as many cycles alone on private
      memory. */
  lemma {:induction false} CoresAreIndependent(k: Cores, events: seq<Event>, p: int)
    requires Good(k) && EventsOK(k, events) && p in k.pipes && StaysOn(events, p)
    ensures var r := Run(k, events);
      Good(r) && p in r.pipes && r.pipes[p] == P.Run(k.pipes[p], Clocks(events, p))
    decreases |events|
  {
    hide Step, P.Cycle, Inv, Visible, EventOK;
    if events != [] {
      assert LeavesRunning(events[0], p);
      StepIsPrivate(k, events[0]);
      CoresAreIndependent(Step(k, events[0]), events[1..], p);
    }
  }

  /** Two runs that step a core equally often leave its process with the same registers, condition codes, status and
      visible memory, even where copy-on-write gave out different frames. */
  lemma OrderDoesNotMatter(k: Cores, events: seq<Event>, events': seq<Event>, p: int)
    requires Good(k) && EventsOK(k, events) && EventsOK(k, events') && p in k.pipes
    requires StaysOn(events, p) && StaysOn(events', p) && Clocks(events, p) == Clocks(events', p)
    ensures var r, r' := Run(k, events), Run(k, events');
      && p in r.pipes && p in r'.pipes && r.pipes[p] == r'.pipes[p]
      && p in r.sys.procs && p in r'.sys.procs
      && Visible(r.sys.procs[p], r.sys.m) == Visible(r'.sys.procs[p], r'.sys.m)
  {
    hide Run, EventsOK, Inv, Visible;
    CoresAreIndependent(k, events, p);
    CoresAreIndependent(k, events', p);
  }

  /** End to end: a program that was put on a core runs, with shared copy-on-write pages, pipelined, and interleaved
      with any other processes, as on a sequential machine with a memory of its own. */
  lemma ProgramsRunSequentially(k: Cores, events: seq<Event>, p: int, pc: int, reg: Registers)
    requires Good(k) && EventsOK(k, events) && p in k.pipes && StaysOn(events, p)
    requires k.pipes[p] == P.Reset(pc, reg, Visible(k.sys.procs[p], k.sys.m)) && |reg| == 8
    requires S.SafeFrom(PipelineProof.Initial(pc, reg, Visible(k.sys.procs[p], k.sys.m)))
    ensures var r := Run(k, events);
      var initial := PipelineProof.Initial(pc, reg, Visible(k.sys.procs[p], k.sys.m));
      var trace := PipelineProof.Trace(k.pipes[p], Clocks(events, p));
      var a := S.Run(initial, |trace|);
      && p in r.pipes && p in r.sys.procs
      && trace == S.Trace(initial, |trace|) && r.pipes[p].reg == a.reg
      && (IsStop(r.pipes[p].stat) <==> a.stat != SAOK)
      && (IsStop(r.pipes[p].stat) ==>
            r.pipes[p].stat == a.stat && r.pipes[p].cc == a.cc && Visible(r.sys.procs[p], r.sys.m) == a.mem)
  {
    hide Run, EventsOK, Inv, Visible, S.SafeFrom, P.Run, S.Run, P.Reset;
    CoresAreIndependent(k, events, p);
    PipelineProof.PipelineRefinesSequential(pc, reg, Visible(k.sys.procs[p], k.sys.m), Clocks(events, p));
  }
}
