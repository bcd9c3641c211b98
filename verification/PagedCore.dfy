/** The byte loops of the core over the address space of its process. */
module PagedCore {
  import opened Words
  import opened Paging
  import opened VirtualMemory
  import opened PagedAccess
  import opened Y86
  import opened WordAccess

  method ReadMemByte(vm: VM, addr: int) returns (b: Byte, error: bool)
    modifies vm`pgd
    ensures var r := ReadByteVm(old(vm.Value()), vm.mem.Value(), addr);
      VmRead(b, error, vm.Value()) == r
  {
    var e: int;
    b, e := vm.Read(ToWord(addr), 0);
    error := e != 0;
  }

  /** readmem: the first error ends the loop. */
  method ReadMem(vm: VM, addr: int) returns (res: int, error: bool)
    modifies vm`pgd
    ensures var r := ReadBytesVm(old(vm.Value()), vm.mem.Value(), addr, 4);
      vm.Value() == r.s && error == r.err && res == if r.err then 0 else Wrap(r.val)
  {
    hide ReadByteVm, ReadVm, ReadSpace, Pow256;
    res, error := 0, false;
    ghost var sum := 0;
    FirstWeight();
    var i := 0;
    while i < 4
      invariant 0 <= i <= 4 && !error && res == Wrap(sum)
      invariant var r := ReadBytesVm(old(vm.Value()), vm.mem.Value(), addr, 4);
        var rest := ReadBytesVm(vm.Value(), vm.mem.Value(), addr + i, 4 - i);
        r.s == rest.s && r.err == rest.err && (!r.err ==> r.val == sum + Pow256(i) * rest.val)
    {
      ghost var rest := ReadBytesVm(vm.Value(), vm.mem.Value(), addr + i, 4 - i);
      var t: Byte;
      t, error := ReadMemByte(vm, addr + i);
      if error {
        return 0, true;
      }
      NextByte(Pow256(i), t, ReadBytesVm(vm.Value(), vm.mem.Value(), addr + i + 1, 4 - (i + 1)).val, i);
      WrapAdd(sum, t * Pow256(i));
      sum := sum + t * Pow256(i);
      res := Wrap(res + Wrap(t * Pow256(i)));
      i := i + 1;
    }
    assert ReadBytesVm(vm.Value(), vm.mem.Value(), addr + i, 0).val == 0;
  }

  lemma FirstWeight()
    ensures Pow256(0) == 1
  {
  }

  /** The next byte has 256 times the weight. */
  lemma NextByte(w: int, t: int, rest: int, i: nat)
    requires w == Pow256(i)
    ensures w * (t + 256 * rest) == t * w + Pow256(i + 1) * rest
  {
    assert Pow256(i + 1) == 256 * w;
    assert w * (256 * rest) == (256 * w) * rest;
  }

  /** writemem: the first error ends the loop. */
  method WriteMem(vm: VM, addr: int, val: int) returns (error: bool)
    modifies vm`pgd, vm`pgd_valid, vm.mem
    ensures VmWrite(vm.Value(), vm.mem.Value(), error)
         == WriteBytesVm(old(vm.Value()), old(vm.mem.Value()), addr, val, 4)
  {
    hide WriteVm, WriteError;
    error := false;
    var i, v := 0, val;
    while i < 4
      invariant 0 <= i <= 4 && !error
      invariant WriteBytesVm(old(vm.Value()), old(vm.mem.Value()), addr, val, 4)
             == WriteBytesVm(vm.Value(), vm.mem.Value(), addr + i, v, 4 - i)
    {
      var e := vm.Write(ToWord(addr + i), 0, v % 256);
      if e != 0 {
        return true;
      }
      v := v / 256;
      i := i + 1;
    }
  }
}
