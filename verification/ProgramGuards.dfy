/** What a program can be checked for, so that the guard of the pipeline holds. */
module ProgramGuards {
  import opened Words
  import opened Y86
  import opened Sequential
  import WordAccess

  function StoreAt(a: Isa): int {
    var x := Execute(a);
    MemAddr(x.ins.icode, x.valE, x.valA)
  }

  /** The instruction at a does not store into the six bytes at pc. */
  predicate Misses(a: Isa, pc: int) {
    MemWrites(FetchAt(a.mem, a.pc).icode) ==>
      forall i, j :: StoreAt(a) <= i < StoreAt(a) + 4 && pc <= j < pc + 6 ==> ToWord(i) != ToWord(j)
  }

  lemma MissedFetch(a: Isa, pc: int)
    requires Misses(a, pc)
    ensures FetchAt(Step(a).mem, pc) == FetchAt(a.mem, pc)
  {
    var x := Execute(a);
    hide FetchAt, WriteBytes, ReadBytes, AluCalc, AluCC, GetCnd;
    if a.stat == SAOK && MemWrites(x.ins.icode) {
      WordAccess.StoreKeepsFetch(a.mem, StoreAt(a), x.valA, pc);
    }
  }

  /** The stores of this and the next instruction miss the bytes of the next two: that is all FetchStable asks. */
  lemma StableIfMissed(a: Isa)
    requires Misses(a, Step(a).pc) && Misses(a, Step(Step(a)).pc) && Misses(Step(a), Step(Step(a)).pc)
    ensures FetchStable(a)
  {
    hide FetchAt, Step, Misses;
    MissedFetch(a, Step(a).pc);
    MissedFetch(a, Step(Step(a)).pc);
    MissedFetch(Step(a), Step(Step(a)).pc);
  }

  // ---------- a program that is safe for ever ----------

  /** A header word, and loop: addl %ecx,%eax; rmmovl %eax,-4(%esp); jmp loop */
  const LOOP: seq<Byte> := [0, 0, 0, 0, 0x60, 0x10, 0x40, 0x04, 0xFC, 0xFF, 0xFF, 0xFF, 0x70, 4, 0, 0, 0]

  /** The loop is in memory, %esp points behind it to memory that is accessible, and the PC is at one of the three
      instructions. */
  ghost predicate InLoop(a: Isa) {
    && a.stat == SAOK && a.pc in {4, 6, 12} && |a.reg| == 8 && 22 <= a.reg[RESP] < TWO_31
    && (forall i :: 0 <= i < |LOOP| ==> ReadByte(a.mem, i) == LOOP[i])
    && AllReadable(a.mem, a.reg[RESP] - 4, 4)
  }

  lemma LoopCode(a: Isa)
    requires InLoop(a)
    ensures var i := FetchAt(a.mem, a.pc);
      && i.stat == SAOK
      && (a.pc == 4 ==> i.icode == IOPL && i.ifun == ALUADD && i.rA == 1 && i.rB == 0 && i.valP == 6)
      && (a.pc == 6 ==> i.icode == IRMMOVL && i.rA == 0 && i.rB == RESP && i.valC == -4 && i.valP == 12)
      && (a.pc == 12 ==> i.icode == IJXX && i.ifun == 0 && i.valC == 4)
  {
    LoopAdds(a.mem);
    LoopStores(a.mem);
    LoopJumps(a.mem);
    hide FetchAt, ReadByte;
  }

  lemma LoopAdds(mem: Memory)
    requires ReadByte(mem, 4) == 0x60 && ReadByte(mem, 5) == 0x10
    ensures var i := FetchAt(mem, 4);
      i.stat == SAOK && i.icode == IOPL && i.ifun == ALUADD && i.rA == 1 && i.rB == 0 && i.valP == 6
  {
    hide ReadBytes, ReadByte;
  }

  lemma LoopStores(mem: Memory)
    requires ReadByte(mem, 6) == 0x40 && ReadByte(mem, 7) == 0x04 && ReadByte(mem, 8) == 0xFC
    requires forall i :: 9 <= i < 12 ==> ReadByte(mem, i) == 0xFF
    ensures var i := FetchAt(mem, 6);
      i.stat == SAOK && i.icode == IRMMOVL && i.rA == 0 && i.rB == RESP && i.valC == -4 && i.valP == 12
  {
    FourBytes(mem, 8);
    hide ReadBytes, ReadByte;
  }

  lemma LoopJumps(mem: Memory)
    requires ReadByte(mem, 12) == 0x70 && ReadByte(mem, 13) == 4
    requires forall i :: 14 <= i < 17 ==> ReadByte(mem, i) == 0
    ensures var i := FetchAt(mem, 12); i.stat == SAOK && i.icode == IJXX && i.ifun == 0 && i.valC == 4
  {
    FourBytes(mem, 13);
    hide ReadBytes, ReadByte;
  }

  lemma FourBytes(mem: Memory, addr: int)
    ensures ReadBytes(mem, addr, 4) == ReadByte(mem, addr) + 0x100 * ReadByte(mem, addr + 1)
      + 0x1_0000 * ReadByte(mem, addr + 2) + 0x100_0000 * ReadByte(mem, addr + 3)
  {
    hide ReadByte;
    assert ReadBytes(mem, addr + 4, 0) == 0 && ReadBytes(mem, addr + 3, 1) == ReadByte(mem, addr + 3);
    assert ReadBytes(mem, addr + 2, 2) == ReadByte(mem, addr + 2) + 0x100 * ReadByte(mem, addr + 3);
    assert ReadBytes(mem, addr + 1, 3)
        == ReadByte(mem, addr + 1) + 0x100 * ReadByte(mem, addr + 2) + 0x1_0000 * ReadByte(mem, addr + 3);
  }

  /** The loop goes round. */
  lemma LoopStep(a: Isa)
    requires InLoop(a)
    ensures InLoop(Step(a)) && Step(a).reg[RESP] == a.reg[RESP]
    ensures FetchAt(a.mem, a.pc).icode == IRMMOVL ==> StoreAt(a) == a.reg[RESP] - 4
  {
    LoopCode(a);
    if a.pc == 6 {
      LoopStore(a.mem, a.reg[RESP] - 4, a.reg[REAX]);
    }
    hide FetchAt, ReadByte, ReadBytes, WriteBytes, AluCC;
  }

  lemma LoopStore(mem: Memory, addr: int, val: int)
    requires AllReadable(mem, addr, 4) && 18 <= addr < TWO_31 - 4
    ensures var w := WriteWord(mem, addr, val); !w.err && AllReadable(w.mem, addr, 4)
    ensures forall i :: 0 <= i < |LOOP| ==> ReadByte(WriteWord(mem, addr, val).mem, i) == ReadByte(mem, i)
  {
    hide WriteBytes, ReadBytes;
    WordAccess.WriteThenRead(mem, addr, val, 4);
    forall i | 0 <= i < 17 ensures ReadByte(WriteWord(mem, addr, val).mem, i) == ReadByte(mem, i) {
      WordAccess.WriteBytesFrame(mem, addr, val, 4, i);
    }
  }

  lemma LoopMisses(a: Isa, pc: int)
    requires InLoop(a) && pc in {4, 6, 12}
    ensures Misses(a, pc)
  {
    LoopCode(a);
    LoopStep(a);
    hide FetchAt, Step, StoreAt, ReadByte;
    if MemWrites(FetchAt(a.mem, a.pc).icode) {
      forall i, j | StoreAt(a) <= i < StoreAt(a) + 4 && pc <= j < pc + 6 ensures ToWord(i) != ToWord(j) {
        WordAccess.DistinctWords(i, j);
      }
    }
  }

  lemma LoopSafe(a: Isa)
    requires InLoop(a)
    ensures Safe(a)
  {
    hide Step, FetchAt, FetchStable, Misses;
    var b := Step(a);
    LoopStep(a);
    LoopStep(b);
    LoopCode(a);
    LoopCode(b);
    LoopMisses(a, b.pc);
    LoopMisses(a, Step(b).pc);
    LoopMisses(b, Step(b).pc);
    StableIfMissed(a);
  }

  lemma {:induction false} LoopForEver(a: Isa, k: nat)
    requires InLoop(a)
    ensures InLoop(Run(a, k))
    decreases k
  {
    hide InLoop, Step;
    if k > 0 {
      LoopStep(a);
      LoopForEver(Step(a), k - 1);
    }
  }

  /** A program with an endless loop, stores and a branch meets the guard of the pipeline. */
  lemma LoopIsSafe(a: Isa)
    requires InLoop(a)
    ensures SafeFrom(a)
  {
    hide InLoop, Run, Safe;
    forall k: nat ensures Safe(Run(a, k)) {
      LoopForEver(a, k);
      LoopSafe(Run(a, k));
    }
  }
}
