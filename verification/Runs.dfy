/** Whole runs of forks, execs and writes by any number of processes. */
module Runs {
  import opened Words
  import opened Pids
  import opened Paging
  import opened Isolation
  import opened ExecImage
  import opened PagedAccess

  datatype Op =
    | Write(pid: int, addr: int, b: Byte)
    | Fork(pid: int)
    | Exec(pid: int, elf: Elf)
    | Read(pid: int, addr: int)

  /** What the kernel and the address spaces do. */
  function Step(sys: Sys, op: Op): Sys
    requires op.pid in sys.procs
  {
    var s := sys.procs[op.pid];
    match op
    case Write(p, a, b) =>
      var v := WriteVm(s, sys.m, a, b);
      Sys(sys.procs[p := v.s], v.m)
    case Fork(p) =>
      var t := ForkSpace(s);
      sys.(procs := sys.procs[p := t][NewPid(sys.procs.Keys) := t])
    case Exec(p, elf) =>
      var v := ExecSpace(s, sys.m, elf);
      Sys(sys.procs[p := v.s], v.m)
    case Read(p, a) =>
      sys.(procs := sys.procs[p := ReadSpace(s, a)])
  }

  ghost function PutByte(f: Flat, a: int, b: Byte): Flat {
    f[a := b]
  }

  /** The same operation where every process owns a flat memory: fork copies all of it. */
  ghost function FlatStep(f: map<int, Flat>, op: Op): map<int, Flat>
    requires op.pid in f
  {
    match op
    case Write(p, a, b) => f[p := PutByte(f[p], a, b)]
    case Fork(p) => f[NewPid(f.Keys) := f[p]]
    case Exec(p, elf) => f[p := ExecFlat(f[p], elf)]
    case Read(_, _) => f
  }

  ghost predicate Guard(sys: Sys, op: Op) {
    op.pid in sys.procs &&
    match op
    case Write(p, a, _) => WriteOK(sys, p, a)
    case Fork(p) => ForkOK(sys.procs[p])
    case Exec(p, elf) => ExecOK(sys, p, elf)
    case Read(p, a) => Readable(sys.procs[p], a)
  }

  ghost predicate Guarded(sys: Sys, ops: seq<Op>)
    decreases ops
  {
    ops == [] || (Guard(sys, ops[0]) && Guarded(Step(sys, ops[0]), ops[1..]))
  }

  function Run(sys: Sys, ops: seq<Op>): Sys
    decreases ops
  {
    if ops == [] || ops[0].pid !in sys.procs then sys else Run(Step(sys, ops[0]), ops[1..])
  }

  ghost function FlatRun(f: map<int, Flat>, ops: seq<Op>): map<int, Flat>
    decreases ops
  {
    if ops == [] || ops[0].pid !in f then f else FlatRun(FlatStep(f, ops[0]), ops[1..])
  }

  /** The bytes that the reads of a run return. */
  function Outputs(sys: Sys, ops: seq<Op>): seq<Byte>
    decreases ops
  {
    if ops == [] || ops[0].pid !in sys.procs then [] else
    (if ops[0].Read? then [ReadVm(sys.procs[ops[0].pid], sys.m, ops[0].addr, 0).val] else [])
    + Outputs(Step(sys, ops[0]), ops[1..])
  }

  ghost function FlatOutputs(f: map<int, Flat>, ops: seq<Op>): seq<Byte>
    decreases ops
  {
    if ops == [] || ops[0].pid !in f then [] else
    (if ops[0].Read? then [ByteIn(f[ops[0].pid], ops[0].addr)] else []) + FlatOutputs(FlatStep(f, ops[0]), ops[1..])
  }

  ghost function ByteIn(f: Flat, a: int): Byte {
    if a in f then f[a] else 0
  }

  lemma ViewsKeys(sys: Sys)
    ensures Views(sys).Keys == sys.procs.Keys
    ensures forall p :: p in sys.procs ==> Views(sys)[p] == View(sys.procs[p], sys.m)
  {
    hide View;
  }

  lemma StepRefines(sys: Sys, op: Op)
    requires Inv(sys) && Guard(sys, op)
    ensures Inv(Step(sys, op)) && op.pid in Views(sys) && Views(Step(sys, op)) == FlatStep(Views(sys), op)
  {
    hide Inv, Views, View, WriteVm, ForkSpace, ExecSpace, WriteOK, ForkOK, ExecOK, ExecFlat, NewPid, ReadSpace,
         Readable;
    ViewsKeys(sys);
    match op
    case Write(p, a, b) => WriteRefines(sys, p, a, b);
    case Fork(p) => ForkRefines(sys, p, NewPid(sys.procs.Keys));
    case Exec(p, elf) => ExecRefines(sys, p, elf);
    case Read(p, a) =>
      ReadableIsMapped(sys.procs[p], a);
      ReadKeepsSpace(sys.procs[p], a);
      SameProcs(sys, p);
  }

  /** Main theorem: over any guarded interleaving of reads, writes, forks and execs by any number of processes, every
      read returns and every process sees what it would if fork copied the whole address space and nothing were ever
      shared. */
  lemma {:induction false} SharingIsInvisible(sys: Sys, ops: seq<Op>)
    requires Inv(sys) && Guarded(sys, ops)
    ensures Inv(Run(sys, ops)) && Views(Run(sys, ops)) == FlatRun(Views(sys), ops)
    ensures Outputs(sys, ops) == FlatOutputs(Views(sys), ops)
    decreases ops
  {
    hide Inv, Views, Guard, Step, FlatStep, ReadVm, View;
    if ops != [] {
      assert Guard(sys, ops[0]) && ops[0].pid in sys.procs by { GuardPid(sys, ops); }
      StepRefines(sys, ops[0]);
      if ops[0].Read? {
        GuardedRead(sys, ops[0]);
      }
      SharingIsInvisible(Step(sys, ops[0]), ops[1..]);
    }
  }

  lemma GuardedRead(sys: Sys, op: Op)
    requires Guard(sys, op) && op.Read?
    ensures op.pid in Views(sys)
    ensures ReadVm(sys.procs[op.pid], sys.m, op.addr, 0).val == ByteIn(Views(sys)[op.pid], op.addr)
  {
    hide ReadVm, View, Readable;
    ReadRefines(sys.procs[op.pid], sys.m, op.addr);
    ViewsKeys(sys);
  }

  lemma ReadableIsMapped(s: Space, a: int)
    requires Readable(s, a)
    ensures !Hole(s, a)
  {
    hide PageOf, MayRead;
  }

  lemma GuardPid(sys: Sys, ops: seq<Op>)
    requires Guarded(sys, ops) && ops != []
    ensures Guard(sys, ops[0]) && ops[0].pid in sys.procs
  {
  }

  /** The state the kernel starts from: one process without pages, no frame in use. */
  function Boot(): Sys {
    Sys(map[1 := Space(map[], map[], [])], Phys(map[], {}))
  }

  lemma BootInv()
    ensures Inv(Boot()) && Views(Boot()) == map[1 := map[]]
  {
    hide PageOf;
    assert forall a :: a !in View(Boot().procs[1], Boot().m);
  }

  // ---------- reads ----------

  /** A byte the process may read. */
  predicate Readable(s: Space, a: int) {
    && 0 <= a < TWO_32 && Mapped(s, PageOf(a)) && InAnArea(s.areas, a)
    && ProtAt(s.areas, a) in {RONLY, RW, COPY_ON_WRITE}
  }

  lemma ReadRefines(s: Space, m: Phys, a: int)
    requires Readable(s, a)
    ensures a in View(s, m) && ReadVm(s, m, a, 0) == ReadResult(View(s, m)[a], 0)
  {
    hide PageOf, InAnArea, ProtAt, Content;
  }

  // ---------- the order of cores ----------

  /** The writes of process p among ops, in order. */
  function Own(ops: seq<Op>, p: int): seq<Op>
    decreases ops
  {
    if ops == [] then [] else (if ops[0].pid == p then [ops[0]] else []) + Own(ops[1..], p)
  }

  predicate AllWrites(ops: seq<Op>) {
    forall op :: op in ops ==> op.Write?
  }

  ghost function OwnRun(f: Flat, ops: seq<Op>): Flat
    decreases ops
  {
    if ops == [] || !ops[0].Write? then f else OwnRun(PutByte(f, ops[0].addr, ops[0].b), ops[1..])
  }

  lemma {:induction false} FlatRunIsOwnRun(f: map<int, Flat>, ops: seq<Op>, p: int)
    requires AllWrites(ops) && p in f && forall op :: op in ops ==> op.pid in f
    ensures FlatRun(f, ops).Keys == f.Keys && FlatRun(f, ops)[p] == OwnRun(f[p], Own(ops, p))
    decreases ops
  {
    if ops != [] {
      assert ops[0] in ops;
      assert forall op :: op in ops[1..] ==> op in ops;
      var g := FlatStep(f, ops[0]);
      FlatRunIsOwnRun(g, ops[1..], p);
      if ops[0].pid == p {
        assert Own(ops, p)[1..] == Own(ops[1..], p);
      } else {
        assert Own(ops, p) == Own(ops[1..], p);
      }
    }
  }

  lemma {:induction false} GuardedPids(sys: Sys, ops: seq<Op>)
    requires Guarded(sys, ops) && AllWrites(ops)
    ensures forall op :: op in ops ==> op.pid in sys.procs
    decreases ops
  {
    if ops != [] {
      assert ops[0] in ops;
      assert forall op :: op in ops[1..] ==> op in ops;
      GuardedPids(Step(sys, ops[0]), ops[1..]);
      assert Step(sys, ops[0]).procs.Keys == sys.procs.Keys;
      hide Step, Guard;
      assert forall op :: op in ops <==> op == ops[0] || op in ops[1..];
    }
  }

  /** Two interleavings of the same writes of each process leave every process with the same memory, although
      copy-on-write may hand out different frames. */
  lemma OrderOfCoresIsInvisible(sys: Sys, ops: seq<Op>, ops': seq<Op>)
    requires Inv(sys) && Guarded(sys, ops) && Guarded(sys, ops') && AllWrites(ops) && AllWrites(ops')
    requires forall p :: p in sys.procs ==> Own(ops, p) == Own(ops', p)
    ensures Views(Run(sys, ops)) == Views(Run(sys, ops'))
  {
    hide Inv, Views, Guarded, AllWrites, Run, FlatRun, OwnRun;
    SharingIsInvisible(sys, ops);
    SharingIsInvisible(sys, ops');
    GuardedPids(sys, ops);
    GuardedPids(sys, ops');
    ViewsKeys(sys);
    var f := Views(sys);
    var l, r := FlatRun(f, ops), FlatRun(f, ops');
    forall p | p in f ensures p in l && p in r && l[p] == r[p] {
      FlatRunIsOwnRun(f, ops, p);
      FlatRunIsOwnRun(f, ops', p);
    }
    if p :| p in f {
      FlatRunIsOwnRun(f, ops, p);
      FlatRunIsOwnRun(f, ops', p);
    } else {
      NoProcesses(f, ops);
      NoProcesses(f, ops');
    }
  }

  lemma NoProcesses(f: map<int, Flat>, ops: seq<Op>)
    requires forall p :: p !in f
    ensures FlatRun(f, ops) == f
  {
  }
}
