/** The kernel object's scheduling state, which changes in place. Every method is tied to the function of module
    Scheduler that says what it does to the whole state. */
module KernelScheduler {
  import opened Pids
  import opened Scheduler
  import opened Scheduling

  class Kernel {
    const cores: array<Core>
    var procs: map<int, Proc>
    var pid_run_time: map<int, int>
    var pid_stop_time: map<int, int>

    ghost function Value(): Kern
      reads this, cores
    {
      Kern(cores[..], procs, pid_run_time, pid_stop_time)
    }

    /** The state after init and the first context switch. */
    constructor (coreCount: nat)
      requires coreCount > 0
      ensures fresh(cores) && Value() == Boot(coreCount)
    {
      cores := new Core[coreCount](i => Core(IDLE, false));
      procs := map[1 := Proc(S, NO_CORE, -1)];
      pid_run_time, pid_stop_time := map[], map[];
      new;
      ContextSwitch(1, 0);
    }

    method ContextSwitch(p: int, j: nat)
      requires p in procs && j < cores.Length
      modifies this, cores
      ensures Value() == Scheduler.ContextSwitch(old(Value()), p, j)
    {
      cores[j] := Core(p, false);
      procs := procs[p := procs[p].(status := R, core := j)];
      pid_run_time := pid_run_time[p := 0];
      pid_stop_time := pid_stop_time[p := 0];
    }

    method Terminate(p: int)
      requires Inv(Value()) && HasStatus(Value(), p, R)
      modifies this, cores
      ensures Value() == Scheduler.Terminate(old(Value()), old(procs[p].core))
    {
      var vm := procs[p];
      if vm.status == R {
        cores[vm.core] := cores[vm.core].(vm := IDLE);
        vm := vm.(core := NO_CORE);
      }
      procs := procs[p := vm.(status := T)];
      pid_stop_time := pid_stop_time - {p};
      pid_run_time := pid_run_time - {p};
    }

    /** Nothing happens to a process that has ended. */
    method Suspend(p: int)
      requires Inv(Value()) && p in procs && procs[p].status != S
      modifies this, cores
      ensures Value() == if old(procs[p].status) == T then old(Value())
                         else Scheduler.Suspend(old(Value()), old(procs[p].core))
    {
      if procs[p].status == T {
        return;
      }
      var j := procs[p].core;
      procs := procs[p := procs[p].(status := S, core := NO_CORE)];
      cores[j] := cores[j].(vm := IDLE);
      pid_run_time := pid_run_time - {p};
    }

    method YFork(p: int) returns (child: int)
      requires p in procs
      modifies this`procs
      ensures child == NewPid(old(procs.Keys)) && Value() == AddChild(old(Value()), p)
    {
      child := 1;
      while child in procs
        invariant procs == old(procs)
        invariant child >= 1 && FirstUnused(procs.Keys, 1) == FirstUnused(procs.Keys, child)
        decreases |AtLeast(procs.Keys, child)|
      {
        AtLeastShrinks(procs.Keys, child);
        child := child + 1;
      }
      procs := procs[child := procs[p].(status := S)];
    }

    method WaitpidStall(p: int) returns (stalled: bool)
      requires p in procs
      ensures stalled == Stalled(Value(), p)
    {
      var w := procs[p].waiting;
      stalled := w > 0 && w in procs && procs[w].status != T;
    }

    /** What follows the run of core j. */
    method HandleCore(j: nat, o: Outcome)
      requires Inv(Value()) && j < cores.Length
      modifies this, cores
      ensures Value() == Handle(old(Value()), j, o)
    {
      hide NewPid;
      var p := cores[j].vm;
      if p == IDLE || o == Continue {
        return;
      }
      if o == Exit || o == Fault {
        Terminate(p);
        return;
      }
      if o.Fork? {
        AddChildKeeps(Value(), p);
        var _ := YFork(p);
      }
      if o.WaitPid? {
        WaitKeeps(Value(), p, o.pid);
        procs := procs[p := procs[p].(waiting := o.pid)];
      }
      Suspend(p);
    }

    // ---------- one cycle ----------

    /** Running the busy cores takes their suspension signals. */
    method RunCores()
      requires Inv(Value())
      modifies cores
      ensures Value() == TakeSignals(old(Value()))
    {
      var j := 0;
      while j < cores.Length
        invariant j <= cores.Length
        invariant forall i :: 0 <= i < cores.Length ==>
                    cores[i] == if i < j && old(cores[..])[i].vm != IDLE then old(cores[..])[i].(signal := false)
                                else old(cores[..])[i]
      {
        if cores[j].vm != IDLE {
          cores[j] := cores[j].(signal := false);
        }
        j := j + 1;
      }
    }

    method HandleCores(outs: seq<Outcome>)
      requires Inv(Value()) && |outs| == cores.Length
      modifies this, cores
      ensures Value() == HandleAll(old(Value()), outs, 0)
    {
      hide Inv, Handle;
      var j := 0;
      while j < cores.Length
        invariant j <= cores.Length && Inv(Value())
        invariant HandleAll(Value(), outs, j) == HandleAll(old(Value()), outs, 0)
      {
        HandleCore(j, outs[j]);
        j := j + 1;
      }
    }

    /** Every running or stopped process gets one cycle older. */
    method CalcTimes()
      requires Inv(Value())
      modifies this`pid_run_time, this`pid_stop_time
      ensures Value() == Ticks(old(Value()), |procs|)
    {
      hide Inv;
      var p := 1;
      while p <= |procs|
        invariant 1 <= p <= |procs| + 1
        invariant Value() == Ticks(old(Value()), p - 1)
      {
        PidIn(old(Value()), p);
        if procs[p].status == R {
          pid_run_time := pid_run_time[p := if p !in pid_run_time then 1 else pid_run_time[p] + 1];
        } else if procs[p].status == S {
          pid_stop_time := pid_stop_time[p := if p !in pid_stop_time then 1 else pid_stop_time[p] + 1];
        }
        p := p + 1;
      }
    }

    method CollectWaiting() returns (waiting: array<int>)
      requires Inv(Value())
      ensures fresh(waiting) && waiting[..] == Waiting(Value(), |procs|)
    {
      hide Inv;
      var w := [];
      var p := 1;
      while p <= |procs|
        invariant 1 <= p <= |procs| + 1
        invariant w == Waiting(Value(), p - 1)
      {
        PidIn(Value(), p);
        var stalled := WaitpidStall(p);
        if procs[p].status == S && !stalled {
          w := w + [p];
        }
        p := p + 1;
      }
      waiting := new int[|w|](i requires 0 <= i < |w| => w[i]);
      assert waiting[..] == w;
    }

    method StopTime(p: int) returns (t: int)
      ensures t == StopIn(pid_stop_time, p)
    {
      t := if p in pid_stop_time then pid_stop_time[p] else 0;
    }

    /** The first process from j on with the greatest stop time. */
    method FindLongest(waiting: array<int>, j: nat) returns (idx: nat)
      requires j < waiting.Length && forall p :: p in pid_stop_time ==> pid_stop_time[p] >= 0
      ensures j <= idx < waiting.Length
      ensures idx - j == MaxIndex(pid_stop_time, waiting[j..], waiting.Length - j)
    {
      var found := -1;
      var max_waiting := -1;
      var i := j;
      while i < waiting.Length
        invariant j <= i <= waiting.Length
        invariant i == j ==> max_waiting == -1
        invariant i > j ==> j <= found < i && max_waiting == StopIn(pid_stop_time, waiting[found])
                            && found - j == MaxIndex(pid_stop_time, waiting[j..], i - j)
      {
        var t := StopTime(waiting[i]);
        assert waiting[j..][i - j] == waiting[i];
        if t > max_waiting {
          max_waiting := t;
          found := i;
        }
        i := i + 1;
      }
      idx := found;
    }

    /** Selection sort in place. */
    method SortWaiting(waiting: array<int>)
      requires forall p :: p in pid_stop_time ==> pid_stop_time[p] >= 0
      modifies waiting
      ensures waiting[..] == SelectionSort(pid_stop_time, old(waiting[..]))
    {
      hide MaxIndex, Swap, SelectionSort;
      var j := 0;
      assert waiting[0..] == waiting[..];
      while j < waiting.Length
        invariant j <= waiting.Length
        invariant waiting[..j] + SelectionSort(pid_stop_time, waiting[j..])
               == SelectionSort(pid_stop_time, old(waiting[..]))
      {
        SelectionStep(pid_stop_time, waiting[j..]);
        var idx := FindLongest(waiting, j);
        ghost var sorted := SelectionSort(pid_stop_time, Swap(waiting[j..], 0, idx - j)[1..]);
        ghost var front := waiting[..j];
        Exchange(waiting, j, idx);
        assert front + ([waiting[j]] + sorted) == (front + [waiting[j]]) + sorted;
        j := j + 1;
      }
      assert SelectionSort(pid_stop_time, waiting[j..]) == [];
    }

    method Exchange(a: array<int>, j: nat, i: nat)
      requires j <= i < a.Length
      modifies a
      ensures a[..j + 1] == old(a[..j]) + [a[j]]
      ensures [a[j]] + a[j + 1..] == Swap(old(a[j..]), 0, i - j)
      ensures a[j] == Swap(old(a[j..]), 0, i - j)[0] && a[j + 1..] == Swap(old(a[j..]), 0, i - j)[1..]
    {
      var t := a[j];
      a[j] := a[i];
      a[i] := t;
    }

    /** Hands the free cores to the first of the list; returns how many have gone. */
    method DispatchWaiting(waiting: array<int>) returns (next: nat)
      requires CanStart(Value(), waiting[..])
      modifies this, cores
      ensures next <= waiting.Length
      ensures Placement(Value(), waiting[next..]) == Dispatch(old(Value()), old(waiting[..]), 0)
    {
      hide CanStart, Scheduler.ContextSwitch;
      next := 0;
      var j := 0;
      assert waiting[0..] == waiting[..];
      while j < cores.Length && next < waiting.Length
        invariant j <= cores.Length && next <= waiting.Length
        invariant waiting[..] == old(waiting[..])
        invariant CanStart(Value(), waiting[next..])
        invariant Dispatch(Value(), waiting[next..], j) == Dispatch(old(Value()), old(waiting[..]), 0)
      {
        if cores[j].vm == IDLE {
          StillWaiting(Value(), waiting[next..], j);
          assert waiting[next..][1..] == waiting[next + 1..];
          ContextSwitch(waiting[next], j);
          next := next + 1;
        }
        j := j + 1;
      }
    }

    method SignalOverdue()
      requires Inv(Value())
      modifies cores
      ensures Value() == SignalAll(old(Value()), |procs|)
    {
      hide Inv;
      var p := 1;
      while p <= |procs|
        invariant 1 <= p <= |procs| + 1
        invariant Value() == SignalAll(old(Value()), p - 1)
      {
        PidIn(Value(), p);
        if procs[p].status == R && p in pid_run_time && pid_run_time[p] > TIME_SLICE {
          RunsOn(Value(), p);
          cores[procs[p].core] := cores[procs[p].core].(signal := true);
        }
        p := p + 1;
      }
    }

    method Arrange()
      requires Inv(Value())
      modifies this, cores
      ensures Value() == Scheduler.Arrange(old(Value()))
    {
      hide SelectionSort, Dispatch, SignalAll, Waiting, CanStart, Descending, Distinct;
      ArrangeIs(Value());
      SortedWaitingFacts(Value());
      var waiting := CollectWaiting();
      if waiting.Length == 0 {
        return;
      }
      SortWaiting(waiting);
      var next := DispatchWaiting(waiting);
      if next == waiting.Length {
        return;
      }
      SignalOverdue();
    }

    /** One clock tick of the whole machine. */
    method Cycle(outs: seq<Outcome>)
      requires Inv(Value()) && |outs| == cores.Length
      modifies this, cores
      ensures Value() == Scheduling.Cycle(old(Value()), outs)
    {
      hide Inv, Scheduler.Arrange, HandleAll, Ticks, TakeSignals;
      RunCores();
      HandleCores(outs);
      CalcTimes();
      assert Value() == BeforeArrange(old(Value()), outs);
      Arrange();
    }
  }

  lemma SelectionStep(stop: map<int, int>, w: seq<int>)
    requires w != []
    ensures var s := Swap(w, 0, MaxIndex(stop, w, |w|)); SelectionSort(stop, w) == [s[0]] + SelectionSort(stop, s[1..])
  {
    hide MaxIndex, Swap;
  }

  lemma PidIn(k: Kern, p: int)
    requires Inv(k) && 1 <= p <= |k.procs|
    ensures p in k.procs
  {
  }

  lemma RunsOn(k: Kern, p: int)
    requires Inv(k) && HasStatus(k, p, R)
    ensures OnCore(k, k.procs[p].core, p)
  {
  }
}
