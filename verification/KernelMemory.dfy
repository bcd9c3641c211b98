/** The kernel's table of processes, and the system calls that rebuild address spaces in place. */
module KernelMemory {
  import opened Words
  import opened Pids
  import opened Paging
  import opened Isolation
  import opened ExecImage
  import opened VirtualMemory
  import Runs

  class Kernel {
    var pid_set: map<int, VM>
    const mem: Mem

    ghost predicate Valid()
      reads this
    {
      forall p :: p in pid_set ==> pid_set[p].mem == mem && pid_set[p].pid == p
    }

    ghost function Spaces(): map<int, Space>
      reads this, pid_set.Values
    {
      map p | p in pid_set :: pid_set[p].Value()
    }

    ghost function Value(): Sys
      reads this, mem, pid_set.Values
    {
      Sys(Spaces(), mem.Value())
    }

    lemma SpacesAre(r: map<int, Space>)
      requires r.Keys == pid_set.Keys && forall p :: p in r ==> pid_set[p].Value() == r[p]
      ensures Spaces() == r
    {
      var l := Spaces();
      forall p ensures (p in l <==> p in r) && (p in l ==> l[p] == r[p]) {
      }
    }

    /** One process, which has no pages yet. */
    constructor ()
      ensures Valid() && fresh(mem) && fresh(pid_set.Values)
      ensures Value() == Runs.Boot()
    {
      var m := new Mem();
      var vm := new VM(m, 1);
      mem := m;
      pid_set := map[1 := vm];
      new;
      assert Spaces() == map[1 := vm.Value()];
    }

    /** The smallest free process number. */
    method FindPid() returns (pid: int)
      ensures pid == NewPid(pid_set.Keys)
    {
      pid := 1;
      while pid in pid_set
        invariant pid >= 1 && FirstUnused(pid_set.Keys, 1) == FirstUnused(pid_set.Keys, pid)
        decreases |AtLeast(pid_set.Keys, pid)|
      {
        AtLeastShrinks(pid_set.Keys, pid);
        pid := pid + 1;
      }
    }

    /** Parent and child become copy-on-write; nothing is copied. */
    method YFork(parent: int) returns (pid: int)
      requires Valid() && parent in pid_set
      requires forall x :: x in pid_set[parent].vm_area && Splits(x) ==> 0 <= x.start && x.end < TWO_32 - PAGE_SIZE
      modifies this`pid_set, pid_set[parent]
      ensures Valid() && pid == NewPid(old(pid_set.Keys)) && pid_set.Keys == old(pid_set.Keys) + {pid}
      ensures fresh(pid_set[pid])
      ensures Value() == Runs.Step(old(Value()), Runs.Fork(parent))
    {
      hide ForkSpace, Runs.Step, NewPid, Splits;
      pid := FindPid();
      AddChild(parent, pid);
      assert old(Spaces()).Keys == old(pid_set.Keys);
      ForkStep(old(Value()), parent);
    }

    method AddChild(parent: int, pid: int)
      requires Valid() && parent in pid_set && pid !in pid_set
      requires forall x :: x in pid_set[parent].vm_area && Splits(x) ==> 0 <= x.start && x.end < TWO_32 - PAGE_SIZE
      modifies this`pid_set, pid_set[parent]
      ensures Valid() && pid_set.Keys == old(pid_set.Keys) + {pid} && fresh(pid_set[pid])
      ensures Spaces() == old(Spaces())[parent := ForkSpace(old(Spaces()[parent]))]
                                       [pid := ForkSpace(old(Spaces()[parent]))]
    {
      hide ForkSpace, Splits;
      var vm := pid_set[parent];
      ghost var t := ForkSpace(vm.Value());
      var child := new VM.Copy(vm, pid);
      vm.MakeCopyOnWrite();
      child.MakeCopyOnWrite();
      pid_set := pid_set[pid := child];
      SpacesAre(old(Spaces())[parent := t][pid := t]);
    }

    // ---------- exec ----------

    /** The first area with the name of the argument area. */
    method FindArgs(vm: VM) returns (i: nat)
      ensures i <= |vm.vm_area|
      ensures ArgsArea(vm.vm_area) == if i < |vm.vm_area| then [vm.vm_area[i]] else []
    {
      i := 0;
      while i < |vm.vm_area|
        invariant i <= |vm.vm_area| && ArgsArea(vm.vm_area) == ArgsArea(vm.vm_area[i..])
      {
        if vm.vm_area[i].name == ARGS_NAME {
          return;
        }
        assert vm.vm_area[i..][1..] == vm.vm_area[i + 1..];
        i := i + 1;
      }
    }

    /** Gives up every valid page outside the argument area. Without such an area the original compares with an area it
        never set, so that case is left to processes without pages. */
    method Destroy(vm: VM, errorIn: int) returns (inited: bool, error: int)
      requires forall x :: x in vm.pgd ==> Aligned(x)
      requires ArgsArea(vm.vm_area) == [] ==> forall x :: !Mapped(vm.Value(), x)
      modifies vm`pgd_valid, vm`vm_area
      ensures vm.Value() == ClearSpace(old(vm.Value())) && error == ClearError(old(vm.Value()), errorIn)
      ensures vm.vm_area == ArgsArea(old(vm.vm_area)) && (inited <==> vm.vm_area != [])
    {
      ghost var s := vm.Value();
      ghost var kept := ArgsArea(s.areas);
      var i := FindArgs(vm);
      inited, error := i < |vm.vm_area|, errorIn;
      var args := if inited then vm.vm_area[i] else Area(0, 0, 0, 0, "");
      vm.vm_area := if inited then [args] else [];
      var pages := vm.pgd.Keys;
      while pages != {}
        invariant pages <= vm.pgd.Keys && vm.pgd == s.pgd && vm.vm_area == kept
        invariant vm.pgd_valid.Keys == s.valid.Keys
        invariant forall x :: x in s.valid ==>
                    vm.pgd_valid[x] == if x in pages then s.valid[x] else ClearedEntry(s, x)
        invariant error == errorIn || error == 0
        invariant forall x :: x in s.valid && x !in pages && GivenUp(s, x) ==> error == 0
        invariant error != errorIn ==> exists x :: x in s.valid && GivenUp(s, x)
        modifies vm`pgd_valid
        decreases |pages|
      {
        var x := Next(pages);
        assert PageOf(x) == x;
        if x in vm.pgd_valid && vm.pgd_valid[x] != PTE_INVALID {
          if PageOf(x) < PageOf(args.start) || PageOf(x) > PageOf(args.end) {
            assert Mapped(s, x) && GivenUp(s, x);
            error := vm.FreePagePte(x);
          }
        }
        pages := pages - {x};
      }
      ClearedEntries(s, vm.pgd_valid);
      OnlyPages(s);
    }

    /** A new image: the old one is destroyed, then the sections are built one after the other. */
    method BuildImage(vm: VM, elf: Elf, errorIn: int)
      requires vm.mem == mem && ImageEnd(elf) < TWO_32 - PAGE_SIZE
      requires forall x :: x in vm.pgd ==> Aligned(x)
      requires ArgsArea(vm.vm_area) == [] ==> forall x :: !Mapped(vm.Value(), x)
      modifies vm, mem
      ensures VmState(vm.Value(), mem.Value()) == ExecSpace(old(vm.Value()), old(mem.Value()), elf, errorIn)
    {
      hide ClearSpace, ClearError, Mapped, ArgsArea, LowSections, HighSections, LowError;
      var inited, error := Destroy(vm, errorIn);
      error := BuildText(vm, elf, error);
      BuildStack(vm, !inited, error);
    }

    /** The sections of the file, each from where the last one ended. */
    method BuildText(vm: VM, elf: Elf, errorIn: int) returns (error: int)
      requires vm.mem == mem && ImageEnd(elf) < TWO_32 - PAGE_SIZE
      modifies vm, mem
      ensures VmState(vm.Value(), mem.Value()) == LowSections(old(vm.Value()), old(mem.Value()), elf, errorIn)
      ensures error == LowError(elf, errorIn)
    {
      hide Paging.AllocateSection;
      var next: int;
      next, error := vm.AllocateSection("text", 0, elf.text, |elf.text|, true, RONLY, errorIn);
      next, error := vm.AllocateSection("data", next, elf.data, |elf.data|, true, RW, error);
      var bss := ZeroBytes(elf.bssLen);
      next, error := vm.AllocateSection("bss", next, bss, elf.bssLen, true, RW, error);
    }

    method BuildStack(vm: VM, boot: bool, errorIn: int)
      requires vm.mem == mem
      modifies vm, mem
      ensures VmState(vm.Value(), mem.Value()) == HighSections(old(vm.Value()), old(mem.Value()), boot, errorIn)
    {
      hide Paging.AllocateSection;
      var next, error := vm.AllocateSection("stack", STACK_LOW, [], STACK_HIGH - STACK_LOW, false, RW, errorIn);
      if boot {
        next, error := vm.AllocateSection(ARGS_NAME, STACK_HIGH, [], ARGS_HIGH - STACK_HIGH, false, RW, error);
      }
    }

    method ZeroBytes(n: nat) returns (bytes: seq<Byte>)
      ensures bytes == Zeros(n)
    {
      var bss := new Byte[n];
      for i := 0 to n
        invariant forall k :: 0 <= k < i ==> bss[k] == 0
      {
        bss[i] := 0;
      }
      bytes := bss[..];
    }

    method YExecve(pid: int, elf: Elf, error: int)
      requires Valid() && pid in pid_set && ImageEnd(elf) < TWO_32 - PAGE_SIZE
      requires forall x :: x in pid_set[pid].pgd ==> Aligned(x)
      requires ArgsArea(pid_set[pid].vm_area) == [] ==> forall x :: !Mapped(pid_set[pid].Value(), x)
      modifies pid_set[pid], mem
      ensures Valid() && pid_set == old(pid_set)
      ensures var v := ExecSpace(old(Value()).procs[pid], old(mem.Value()), elf, error);
        Value() == Sys(old(Spaces())[pid := v.s], v.m)
      ensures error == 0 ==> Value() == Runs.Step(old(Value()), Runs.Exec(pid, elf))
    {
      hide Runs.Step, ExecSpace, Mapped, ArgsArea;
      BuildImage(pid_set[pid], elf, error);
      SpacesAre(old(Spaces())[pid := pid_set[pid].Value()]);
      ExecStep(old(Value()), pid, elf);
    }
  }

  lemma ExecStep(sys: Sys, p: int, elf: Elf)
    requires p in sys.procs
    ensures var v := ExecSpace(sys.procs[p], sys.m, elf);
      Runs.Step(sys, Runs.Exec(p, elf)) == Sys(sys.procs[p := v.s], v.m)
  {
    hide ForkSpace, WriteVm, ExecSpace;
  }

  function ClearedEntry(s: Space, x: int): int
    requires x in s.valid
  {
    if GivenUp(s, x) then PTE_INVALID else s.valid[x]
  }

  lemma ClearedEntries(s: Space, valid: map<int, int>)
    requires valid.Keys == s.valid.Keys
    requires forall x :: x in s.valid ==> valid[x] == ClearedEntry(s, x)
    ensures Space(s.pgd, valid, ArgsArea(s.areas)) == ClearSpace(s)
  {
    hide GivenUp, ArgsArea;
    var r := ClearSpace(s).valid;
    forall x ensures (x in valid <==> x in r) && (x in valid ==> valid[x] == r[x]) {
      assert x in valid <==> x in valid.Keys;
      assert x in s.valid <==> x in s.valid.Keys;
    }
  }

  /** Only a page with a frame is given up. */
  lemma OnlyPages(s: Space)
    ensures forall x :: x in s.valid && GivenUp(s, x) ==> x in s.pgd.Keys
  {
  }

  /** The order in which the pages are visited does not matter. */
  method Next(pages: set<int>) returns (x: int)
    requires pages != {}
    ensures x in pages
  {
    NotEmpty(pages);
    x :| x in pages;
  }

  lemma NotEmpty(pages: set<int>)
    ensures (forall x :: x !in pages) ==> pages == {}
  {
    if forall x :: x !in pages {
      assert pages == {};
    }
  }

  lemma ForkStep(sys: Sys, p: int)
    requires p in sys.procs
    ensures var t := ForkSpace(sys.procs[p]);
      Runs.Step(sys, Runs.Fork(p)) == Sys(sys.procs[p := t][NewPid(sys.procs.Keys) := t], sys.m)
  {
    hide ForkSpace, WriteVm, ExecSpace;
  }
}
