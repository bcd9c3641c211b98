/** The kernel's scheduler: processes, cores and waiting times, one cycle after another. What a core's run does to its
    process is a free outcome. */
module Scheduler {
  import opened Pids

  /** A core without process. */
  const IDLE := 0

  /** The cpu of a process that is on no core. */
  const NO_CORE := -1

  /** Run time after which a process is asked to make room for a waiting one. */
  const TIME_SLICE := 50

  datatype Status = R | S | T

  /** Scheduling state of a process: status, core, and the process it waits for (if positive). */
  datatype Proc = Proc(status: Status, core: int, waiting: int)

  datatype Core = Core(vm: int, signal: bool)

  /** The cores of all CPUs in order, the processes, and how long each has been running or stopped. */
  datatype Kern = Kern(cores: seq<Core>, procs: map<int, Proc>, runTime: map<int, int>, stopTime: map<int, int>)

  /** What one run of a core leads to: nothing, a system call, a requested suspension, or a fault. */
  datatype Outcome = Continue | Exit | Fork | WaitPid(pid: int) | OtherCall | Suspended | Fault

  predicate HasStatus(k: Kern, p: int, s: Status) {
    p in k.procs && k.procs[p].status == s
  }

  predicate OnCore(k: Kern, j: int, p: int) {
    0 <= j < |k.cores| && k.cores[j].vm == p
  }

  /** Pids are 1..n; busy cores and running processes are in bijection; stop times belong to processes and are 0 for
      running ones. */
  ghost predicate Inv(k: Kern) {
    && (forall p :: p in k.procs <==> 1 <= p <= |k.procs|)
    && (forall j :: 0 <= j < |k.cores| && k.cores[j].vm != IDLE ==>
          HasStatus(k, k.cores[j].vm, R) && k.procs[k.cores[j].vm].core == j)
    && (forall p :: HasStatus(k, p, R) ==> OnCore(k, k.procs[p].core, p) && Stop(k, p) == 0)
    && (forall p :: p in k.stopTime ==> p in k.procs && k.stopTime[p] >= 0)
  }

  function StopIn(stop: map<int, int>, p: int): int {
    if p in stop then stop[p] else 0
  }

  function Stop(k: Kern, p: int): int {
    StopIn(k.stopTime, p)
  }

  function RunTime(k: Kern, p: int): int {
    if p in k.runTime then k.runTime[p] else 0
  }

  // ---------- one process ----------

  function ContextSwitch(k: Kern, p: int, j: int): (r: Kern)
    requires p in k.procs && 0 <= j < |k.cores|
    ensures |r.cores| == |k.cores|
  {
    Kern(k.cores[j := Core(p, false)],
         k.procs[p := k.procs[p].(status := R, core := j)],
         k.runTime[p := 0],
         k.stopTime[p := 0])
  }

  function Release(cores: seq<Core>, j: int): seq<Core>
    requires 0 <= j < |cores|
  {
    cores[j := cores[j].(vm := IDLE)]
  }

  /** The process on core j ends. */
  function Terminate(k: Kern, j: int): Kern
    requires Inv(k) && 0 <= j < |k.cores| && k.cores[j].vm != IDLE
  {
    var p := k.cores[j].vm;
    Kern(Release(k.cores, j), k.procs[p := k.procs[p].(status := T, core := NO_CORE)],
         k.runTime - {p}, k.stopTime - {p})
  }

  /** The process on core j goes off it. Its stop time stays 0 for now. */
  function Suspend(k: Kern, j: int): Kern
    requires Inv(k) && 0 <= j < |k.cores| && k.cores[j].vm != IDLE
  {
    var p := k.cores[j].vm;
    Kern(Release(k.cores, j), k.procs[p := k.procs[p].(status := S, core := NO_CORE)], k.runTime - {p}, k.stopTime)
  }

  /** The child is a suspended copy of its parent's record, with a new pid and no times. */
  function AddChild(k: Kern, p: int): Kern
    requires p in k.procs
  {
    k.(procs := k.procs[NewPid(k.procs.Keys) := k.procs[p].(status := S)])
  }

  function Handle(k: Kern, j: int, o: Outcome): (r: Kern)
    requires Inv(k) && 0 <= j < |k.cores|
    ensures Inv(r) && |r.cores| == |k.cores|
  {
    var p := k.cores[j].vm;
    if p == IDLE then k else
    match o
    case Continue => k
    case Exit => TerminateKeeps(k, j); Terminate(k, j)
    case Fault => TerminateKeeps(k, j); Terminate(k, j)
    case Fork => AddChildKeeps(k, p); SuspendKeeps(AddChild(k, p), j); Suspend(AddChild(k, p), j)
    case WaitPid(n) =>
      var k' := k.(procs := k.procs[p := k.procs[p].(waiting := n)]);
      WaitKeeps(k, p, n);
      SuspendKeeps(k', j);
      Suspend(k', j)
    case OtherCall => SuspendKeeps(k, j); Suspend(k, j)
    case Suspended => SuspendKeeps(k, j); Suspend(k, j)
  }

  lemma TerminateKeeps(k: Kern, j: int)
    requires Inv(k) && 0 <= j < |k.cores| && k.cores[j].vm != IDLE
    ensures Inv(Terminate(k, j))
  {
    assert Terminate(k, j).procs.Keys == k.procs.Keys;
  }

  lemma SuspendKeeps(k: Kern, j: int)
    requires Inv(k) && 0 <= j < |k.cores| && k.cores[j].vm != IDLE
    ensures Inv(Suspend(k, j))
  {
    assert Suspend(k, j).procs.Keys == k.procs.Keys;
  }

  lemma WaitKeeps(k: Kern, p: int, n: int)
    requires Inv(k) && HasStatus(k, p, R)
    ensures Inv(k.(procs := k.procs[p := k.procs[p].(waiting := n)]))
  {
    assert k.procs[p := k.procs[p].(waiting := n)].Keys == k.procs.Keys;
  }

  /** The new pid is one more than the number of processes: pids stay 1..n, and none is used twice. */
  lemma AddChildKeeps(k: Kern, p: int)
    requires Inv(k) && p in k.procs
    ensures Inv(AddChild(k, p)) && NewPid(k.procs.Keys) == |k.procs| + 1
  {
    var c := NewPid(k.procs.Keys);
    assert c - 1 >= 1 ==> c - 1 in k.procs;
    assert AddChild(k, p).procs.Keys == k.procs.Keys + {c};
    assert |k.procs| == |k.procs.Keys| && |AddChild(k, p).procs| == |AddChild(k, p).procs.Keys|;
  }

  // ---------- a cycle up to the time calculation ----------

  /** Running a core takes its suspension signal. */
  function TakeSignals(k: Kern): (r: Kern)
    requires Inv(k)
    ensures Inv(r) && r.procs == k.procs && r.stopTime == k.stopTime && |r.cores| == |k.cores|
    ensures forall j :: 0 <= j < |k.cores| && k.cores[j].vm == IDLE ==> r.cores[j] == k.cores[j]
  {
    k.(cores := seq(|k.cores|, j requires 0 <= j < |k.cores| =>
                      if k.cores[j].vm == IDLE then k.cores[j] else k.cores[j].(signal := false)))
  }

  function HandleAll(k: Kern, outs: seq<Outcome>, j: nat): (r: Kern)
    requires Inv(k) && |outs| == |k.cores| && j <= |outs|
    ensures Inv(r) && |r.cores| == |k.cores|
    decreases |outs| - j
  {
    if j == |outs| then k else HandleAll(Handle(k, j, outs[j]), outs, j + 1)
  }

  /** One more cycle running or stopped. */
  function Tick(k: Kern, p: int): Kern {
    if HasStatus(k, p, R) then k.(runTime := k.runTime[p := RunTime(k, p) + 1])
    else if HasStatus(k, p, S) then k.(stopTime := k.stopTime[p := Stop(k, p) + 1])
    else k
  }

  function Ticks(k: Kern, n: nat): (r: Kern)
    ensures r.cores == k.cores && r.procs == k.procs
    ensures forall p :: 1 <= p <= n && HasStatus(k, p, S) ==> p in r.stopTime && Stop(r, p) == Stop(k, p) + 1
    ensures forall p :: !(1 <= p <= n && HasStatus(k, p, S)) ==>
              (p in r.stopTime <==> p in k.stopTime) && Stop(r, p) == Stop(k, p)
    ensures forall p :: RunTime(r, p) == if 1 <= p <= n && HasStatus(k, p, R) then RunTime(k, p) + 1 else RunTime(k, p)
  {
    if n == 0 then k else Tick(Ticks(k, n - 1), n)
  }

  /** The state that arrange finds. */
  function BeforeArrange(k: Kern, outs: seq<Outcome>): (r: Kern)
    requires Inv(k) && |outs| == |k.cores|
    ensures Inv(r) && |r.cores| == |k.cores| && Timed(r)
  {
    var k' := HandleAll(TakeSignals(k), outs, 0);
    Ticks(k', |k'.procs|)
  }

  /** Every suspended process has been stopped for a cycle at least. */
  ghost predicate Timed(k: Kern) {
    forall p :: HasStatus(k, p, S) ==> p in k.stopTime && k.stopTime[p] >= 1
  }

  // ---------- arrange ----------

  /** Waiting for a process that exists and has not ended. */
  predicate Stalled(k: Kern, p: int)
    requires p in k.procs
  {
    var w := k.procs[p].waiting;
    w > 0 && w in k.procs && k.procs[w].status != T
  }

  predicate Eligible(k: Kern, p: int) {
    HasStatus(k, p, S) && !Stalled(k, p)
  }

  /** The eligible processes up to n in order of their pids. */
  function Waiting(k: Kern, n: nat): (w: seq<int>)
    ensures forall p :: p in w <==> 1 <= p <= n && Eligible(k, p)
    ensures Distinct(w)
  {
    if n == 0 then [] else Waiting(k, n - 1) + if Eligible(k, n) then [n] else []
  }

  predicate Distinct(w: seq<int>) {
    forall i, j :: 0 <= i < j < |w| ==> w[i] != w[j]
  }

  /** The first of the greatest stop times among the first n. */
  function MaxIndex(stop: map<int, int>, w: seq<int>, n: nat): (m: nat)
    requires 1 <= n <= |w|
    ensures m < n && forall i :: 0 <= i < n ==> StopIn(stop, w[i]) <= StopIn(stop, w[m])
    ensures forall i :: 0 <= i < m ==> StopIn(stop, w[i]) < StopIn(stop, w[m])
  {
    if n == 1 then 0 else
    var m := MaxIndex(stop, w, n - 1);
    if StopIn(stop, w[n - 1]) > StopIn(stop, w[m]) then n - 1 else m
  }

  function Swap(w: seq<int>, i: nat, j: nat): (r: seq<int>)
    requires i < |w| && j < |w|
    ensures |r| == |w| && multiset(r) == multiset(w)
  {
    w[i := w[j]][j := w[i]]
  }

  /** Selection sort by falling stop time. */
  function SelectionSort(stop: map<int, int>, w: seq<int>): (r: seq<int>)
    ensures |r| == |w|
    decreases |w|
  {
    if w == [] then [] else
    var s := Swap(w, 0, MaxIndex(stop, w, |w|));
    [s[0]] + SelectionSort(stop, s[1..])
  }

  predicate Descending(stop: map<int, int>, w: seq<int>) {
    forall i, j :: 0 <= i < j < |w| ==> StopIn(stop, w[i]) >= StopIn(stop, w[j])
  }

  predicate AtMost(stop: map<int, int>, w: seq<int>, max: int) {
    forall i :: 0 <= i < |w| ==> StopIn(stop, w[i]) <= max
  }

  lemma {:induction false} SortBounded(stop: map<int, int>, w: seq<int>, max: int)
    requires AtMost(stop, w, max)
    ensures AtMost(stop, SelectionSort(stop, w), max)
    decreases |w|
  {
    if w != [] {
      var s := Swap(w, 0, MaxIndex(stop, w, |w|));
      SortBounded(stop, s[1..], max);
    }
  }

  /** Selection sort permutes its input and orders it. */
  lemma {:induction false} SortSorts(stop: map<int, int>, w: seq<int>)
    ensures multiset(SelectionSort(stop, w)) == multiset(w) && Descending(stop, SelectionSort(stop, w))
    decreases |w|
  {
    hide Swap, StopIn, MaxIndex, Descending, AtMost;
    if w != [] {
      var s := Swap(w, 0, MaxIndex(stop, w, |w|));
      var r := SelectionSort(stop, s[1..]);
      SortSorts(stop, s[1..]);
      FirstIsMax(stop, w);
      SortBounded(stop, s[1..], StopIn(stop, s[0]));
      DescendingCons(stop, s[0], r);
      assert s == [s[0]] + s[1..];
      calc {
        multiset([s[0]] + r);
        multiset([s[0]]) + multiset(r);
        multiset([s[0]]) + multiset(s[1..]);
        multiset([s[0]] + s[1..]);
        multiset(w);
      }
    } else {
      EmptyDescending(stop);
    }
  }

  lemma FirstIsMax(stop: map<int, int>, w: seq<int>)
    requires w != []
    ensures var s := Swap(w, 0, MaxIndex(stop, w, |w|)); AtMost(stop, s[1..], StopIn(stop, s[0]))
  {
    hide StopIn, MaxIndex;
  }

  lemma DescendingCons(stop: map<int, int>, p: int, w: seq<int>)
    requires Descending(stop, w) && AtMost(stop, w, StopIn(stop, p))
    ensures Descending(stop, [p] + w)
  {
    hide StopIn;
  }

  lemma EmptyDescending(stop: map<int, int>)
    ensures Descending(stop, [])
  {
  }

  lemma SameElements(v: seq<int>, w: seq<int>)
    requires multiset(v) == multiset(w)
    ensures |v| == |w| && (forall p :: p in v <==> p in w) && (Distinct(v) ==> Distinct(w))
  {
    assert |multiset(v)| == |v| && |multiset(w)| == |w|;
    forall p ensures p in v <==> p in w {
      assert p in multiset(v) <==> p in multiset(w);
    }
    if Distinct(v) {
      forall i, j | 0 <= i < j < |w| ensures w[i] != w[j] {
        if w[i] == w[j] {
          TwiceIn(w, i, j);
          OnceIn(v, w[i]);
        }
      }
    }
  }

  lemma TwiceIn(w: seq<int>, i: nat, j: nat)
    requires i < j < |w| && w[i] == w[j]
    ensures multiset(w)[w[i]] >= 2
  {
    assert w == w[..i] + [w[i]] + w[i + 1..j] + [w[j]] + w[j + 1..];
  }

  lemma {:induction false} OnceIn(v: seq<int>, p: int)
    requires Distinct(v)
    ensures multiset(v)[p] <= 1
    decreases |v|
  {
    if v != [] {
      OnceIn(v[1..], p);
      assert v == [v[0]] + v[1..];
      if v[0] == p {
        assert p !in v[1..];
      }
    }
  }

  predicate CanStart(k: Kern, w: seq<int>) {
    Distinct(w) && forall p :: p in w ==> HasStatus(k, p, S)
  }

  lemma StillWaiting(k: Kern, w: seq<int>, j: nat)
    requires CanStart(k, w) && w != [] && j < |k.cores|
    ensures HasStatus(k, w[0], S) && CanStart(ContextSwitch(k, w[0], j), w[1..])
  {
    assert w[0] in w;
    forall p | p in w[1..] ensures p in w && p != w[0] {
    }
  }

  datatype Placement = Placement(k: Kern, rest: seq<int>)

  /** The sorted processes go to the free cores from core j on. */
  function Dispatch(k: Kern, w: seq<int>, j: nat): (d: Placement)
    requires j <= |k.cores| && CanStart(k, w)
    ensures |d.k.cores| == |k.cores|
    decreases |k.cores| - j
  {
    if j == |k.cores| || w == [] then Placement(k, w)
    else if k.cores[j].vm == IDLE then StillWaiting(k, w, j); Dispatch(ContextSwitch(k, w[0], j), w[1..], j + 1)
    else Dispatch(k, w, j + 1)
  }

  predicate Overdue(k: Kern, p: int) {
    HasStatus(k, p, R) && RunTime(k, p) > TIME_SLICE
  }

  /** The cores of running processes up to n whose time is up are told to suspend them. */
  function SignalAll(k: Kern, n: nat): (r: Kern)
    requires Inv(k)
    ensures r == k.(cores := r.cores) && |r.cores| == |k.cores|
    ensures forall j :: 0 <= j < |k.cores| ==>
              r.cores[j].vm == k.cores[j].vm
              && (r.cores[j].signal <==> k.cores[j].signal || (1 <= k.cores[j].vm <= n && Overdue(k, k.cores[j].vm)))
    ensures Inv(r)
  {
    if n == 0 then k else
    var k' := SignalAll(k, n - 1);
    if Overdue(k', n) then
      k'.(cores := k'.cores[k'.procs[n].core := k'.cores[k'.procs[n].core].(signal := true)])
    else k'
  }

  function Arrange(k: Kern): Kern
    requires Inv(k)
  {
    var w := Waiting(k, |k.procs|);
    if w == [] then k else
    var sorted := SelectionSort(k.stopTime, w);
    SortSorts(k.stopTime, w);
    SameElements(w, sorted);
    var d := Dispatch(k, sorted, 0);
    if d.rest == [] then d.k else
    DispatchKeeps(k, sorted, 0);
    SignalAll(d.k, |d.k.procs|)
  }

  /** The number of idle cores from core j on. */
  function FreeCores(cores: seq<Core>, j: nat): nat
    requires j <= |cores|
    decreases |cores| - j
  {
    if j == |cores| then 0 else (if cores[j].vm == IDLE then 1 else 0) + FreeCores(cores, j + 1)
  }

  function Min(x: nat, y: nat): nat {
    if x < y then x else y
  }

  lemma ContextSwitchKeeps(k: Kern, p: int, j: nat)
    requires Inv(k) && j < |k.cores| && k.cores[j].vm == IDLE && HasStatus(k, p, S)
    ensures Inv(ContextSwitch(k, p, j))
  {
    assert ContextSwitch(k, p, j).procs.Keys == k.procs.Keys;
  }

  lemma {:induction false} FreeCoresBehind(cores: seq<Core>, c: Core, i: nat, j: nat)
    requires i < j <= |cores|
    ensures FreeCores(cores[i := c], j) == FreeCores(cores, j)
    decreases |cores| - j
  {
    if j < |cores| {
      FreeCoresBehind(cores, c, i, j + 1);
    }
  }

  /** Process p is the same in both states. */
  predicate Same(k: Kern, k': Kern, p: int) {
    && (p in k'.procs <==> p in k.procs) && (p in k.procs ==> k'.procs[p] == k.procs[p])
    && Stop(k', p) == Stop(k, p) && RunTime(k', p) == RunTime(k, p) && (p in k'.stopTime <==> p in k.stopTime)
  }

  /** How many of the list are dispatched. */
  function Started(k: Kern, w: seq<int>, j: nat): (n: nat)
    requires j <= |k.cores|
    ensures n <= |w|
  {
    Min(FreeCores(k.cores, j), |w|)
  }

  lemma StartedStep(k: Kern, w: seq<int>, j: nat)
    requires j < |k.cores| && w != [] && w[0] in k.procs
    ensures k.cores[j].vm == IDLE ==>
              Started(k, w, j) == 1 + Started(ContextSwitch(k, w[0], j), w[1..], j + 1)
    ensures k.cores[j].vm != IDLE ==> Started(k, w, j) == Started(k, w, j + 1)
  {
    FreeCoresBehind(k.cores, Core(w[0], false), j, j + 1);
  }

  /** As many processes as there are free cores are dispatched, from the front of the list. */
  lemma {:induction false} DispatchKeeps(k: Kern, w: seq<int>, j: nat)
    requires Inv(k) && j <= |k.cores| && CanStart(k, w)
    ensures var d := Dispatch(k, w, j); Inv(d.k) && d.rest == w[Started(k, w, j)..]
    decreases |k.cores| - j
  {
    hide Inv, Started, ContextSwitch, Distinct, CanStart;
    if j < |k.cores| && w != [] {
      StartedStep(k, w, j) by { StillWaiting(k, w, j); }
      if k.cores[j].vm == IDLE {
        StillWaiting(k, w, j);
        ContextSwitchKeeps(k, w[0], j);
        DispatchKeeps(ContextSwitch(k, w[0], j), w[1..], j + 1);
      } else {
        DispatchKeeps(k, w, j + 1);
      }
    } else {
      NoneStarted(k, w, j);
    }
  }

  lemma NoneStarted(k: Kern, w: seq<int>, j: nat)
    requires j <= |k.cores| && (j == |k.cores| || w == [])
    ensures Started(k, w, j) == 0
  {
  }

  /** Those processes run, and all others are as before. */
  lemma {:induction false} DispatchProcess(k: Kern, w: seq<int>, j: nat, p: int)
    requires j <= |k.cores| && CanStart(k, w)
    ensures var d := Dispatch(k, w, j); var started := w[..Started(k, w, j)];
      && (p in started ==> HasStatus(d.k, p, R) && RunTime(d.k, p) == 0) && (p !in started ==> Same(k, d.k, p))
    decreases |k.cores| - j
  {
    hide Started, Distinct, CanStart, FreeCores;
    if j < |k.cores| && w != [] {
      StartedStep(k, w, j) by { StillWaiting(k, w, j); }
      var n := Started(k, w, j);
      if k.cores[j].vm == IDLE {
        StillWaiting(k, w, j);
        var k' := ContextSwitch(k, w[0], j);
        DispatchProcess(k', w[1..], j + 1, p);
        NotAgain(k, w);
        assert w[..n] == [w[0]] + w[1..][..n - 1];
        hide Dispatch;
      } else {
        DispatchProcess(k, w, j + 1, p);
      }
    } else {
      NoneStarted(k, w, j);
    }
  }

  lemma NotAgain(k: Kern, w: seq<int>)
    requires CanStart(k, w) && w != []
    ensures w[0] !in w[1..]
  {
  }

  /** Busy cores keep their processes; if processes are left over, every core is busy. */
  lemma {:induction false} DispatchCore(k: Kern, w: seq<int>, j: nat, i: nat)
    requires j <= |k.cores| && CanStart(k, w) && i < |k.cores| && IDLE !in w
    ensures var d := Dispatch(k, w, j);
      && (i < j || k.cores[i].vm != IDLE ==> d.k.cores[i] == k.cores[i])
      && (j <= i && d.rest != [] ==> d.k.cores[i].vm != IDLE)
    decreases |k.cores| - j
  {
    hide Distinct, CanStart;
    if j < |k.cores| && w != [] {
      if k.cores[j].vm == IDLE {
        StillWaiting(k, w, j);
        assert w[0] in w && IDLE !in w[1..];
        DispatchCore(ContextSwitch(k, w[0], j), w[1..], j + 1, i);
      } else {
        DispatchCore(k, w, j + 1, i);
      }
    }
  }

  /** A core that gets a process has no signal. */
  lemma {:induction false} DispatchedCore(k: Kern, w: seq<int>, j: nat, p: int)
    requires j <= |k.cores| && CanStart(k, w) && p in w[..Started(k, w, j)]
    ensures var d := Dispatch(k, w, j);
      && HasStatus(d.k, p, R) && OnCore(d.k, d.k.procs[p].core, p)
      && d.k.cores[d.k.procs[p].core] == Core(p, false)
    decreases |k.cores| - j
  {
    hide Started, Distinct, CanStart, FreeCores;
    if j < |k.cores| && w != [] {
      StartedStep(k, w, j) by { StillWaiting(k, w, j); }
      var n := Started(k, w, j);
      if k.cores[j].vm == IDLE {
        StillWaiting(k, w, j);
        var k' := ContextSwitch(k, w[0], j);
        assert w[..n] == [w[0]] + w[1..][..n - 1];
        if p == w[0] {
          NotAgain(k, w);
          DispatchProcess(k', w[1..], j + 1, p);
          DispatchFront(k', w[1..], j + 1, j);
        } else {
          DispatchedCore(k', w[1..], j + 1, p);
        }
      } else {
        DispatchedCore(k, w, j + 1, p);
      }
    } else {
      NoneStarted(k, w, j);
    }
  }

  lemma {:induction false} DispatchFront(k: Kern, w: seq<int>, j: nat, i: nat)
    requires i < j <= |k.cores| && CanStart(k, w)
    ensures Dispatch(k, w, j).k.cores[i] == k.cores[i]
    decreases |k.cores| - j
  {
    hide Distinct, CanStart;
    if j < |k.cores| && w != [] {
      if k.cores[j].vm == IDLE {
        StillWaiting(k, w, j);
        DispatchFront(ContextSwitch(k, w[0], j), w[1..], j + 1, i);
      } else {
        DispatchFront(k, w, j + 1, i);
      }
    }
  }
}
