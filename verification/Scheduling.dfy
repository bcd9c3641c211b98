/** What the scheduler guarantees over whole runs. */
module Scheduling {
  import opened Pids
  import opened Scheduler

  // ---------- arrange ----------

  ghost function Eligibles(k: Kern): set<int> {
    set p | p in k.procs && Eligible(k, p)
  }

  /** The processes that a step from k to r puts on a core. */
  ghost function Dispatched(k: Kern, r: Kern): set<int> {
    set p | p in k.procs && HasStatus(k, p, S) && HasStatus(r, p, R)
  }

  function SortedWaiting(k: Kern): seq<int> {
    SelectionSort(k.stopTime, Waiting(k, |k.procs|))
  }

  lemma SortedWaitingFacts(k: Kern)
    requires Inv(k)
    ensures var w := SortedWaiting(k);
      && (forall p :: p in w <==> Eligible(k, p)) && Distinct(w) && Descending(k.stopTime, w)
      && CanStart(k, w) && IDLE !in w && |w| == |Eligibles(k)| && |w| == |Waiting(k, |k.procs|)|
  {
    hide Stalled;
    var w := Waiting(k, |k.procs|);
    SortSorts(k.stopTime, w);
    SameElements(w, SortedWaiting(k));
    Cardinality(SortedWaiting(k), Eligibles(k));
  }

  lemma {:induction false} Cardinality(w: seq<int>, s: set<int>)
    requires Distinct(w) && forall p :: p in w <==> p in s
    ensures |s| == |w|
    decreases w
  {
    if w == [] {
      assert forall p :: p in s ==> p in w;
      assert |s| == 0;
    } else {
      assert w == [w[0]] + w[1..];
      assert w[0] !in w[1..];
      Cardinality(w[1..], s - {w[0]});
    }
  }

  /** Arrange is dispatch followed, if processes are left over, by the signals. */
  lemma ArrangeIs(k: Kern)
    requires Inv(k)
    ensures CanStart(k, SortedWaiting(k))
    ensures var d := Dispatch(k, SortedWaiting(k), 0);
      Inv(d.k) && Arrange(k) == if d.rest == [] then d.k else SignalAll(d.k, |d.k.procs|)
  {
    hide Inv, Eligible, CanStart, Distinct;
    SortedWaitingFacts(k);
    DispatchKeeps(k, SortedWaiting(k), 0);
  }

  lemma ArrangeKeeps(k: Kern)
    requires Inv(k)
    ensures Inv(Arrange(k)) && |Arrange(k).cores| == |k.cores|
  {
    hide Inv, SortedWaiting, Dispatch, CanStart;
    ArrangeIs(k);
  }

  /** A process is dispatched if it is among the first of the sorted list; otherwise it is untouched. */
  lemma ArrangeProcess(k: Kern, p: int)
    requires Inv(k)
    ensures var w := SortedWaiting(k); var started := w[..Started(k, w, 0)];
      && (p in started ==> HasStatus(Arrange(k), p, R) && RunTime(Arrange(k), p) == 0)
      && (p !in started ==> Same(k, Arrange(k), p))
      && (p in Dispatched(k, Arrange(k)) <==> p in started)
  {
    hide Inv, SortedWaiting, Dispatch, CanStart, Started, Distinct, Descending;
    ArrangeIs(k);
    SortedWaitingFacts(k);
    DispatchProcess(k, SortedWaiting(k), 0, p);
    var w := SortedWaiting(k);
    assert p in w[..Started(k, w, 0)] ==> p in w;
  }

  /** arrange dispatches as many processes as there are free cores for, those stopped longest, and moves no other; if
      an eligible one is left over, every core is busy and the cores of overdue processes are signalled. */
  lemma ArrangeDispatches(k: Kern)
    requires Inv(k)
    ensures var r := Arrange(k); var started := Dispatched(k, r);
      && started <= Eligibles(k)
      && |started| == Min(FreeCores(k.cores, 0), |Eligibles(k)|)
      && (forall p, q :: q in started && p in Eligibles(k) - started ==> Stop(k, q) >= Stop(k, p))
      && (forall p :: p !in started ==> Same(k, r, p))
      && (started != Eligibles(k) ==>
            forall j :: 0 <= j < |r.cores| ==>
              r.cores[j].vm != IDLE && (Overdue(r, r.cores[j].vm) ==> r.cores[j].signal))
  {
    hide Inv, SortedWaiting, Dispatch, CanStart, Started, Descending, Same, Arrange, FreeCores, Min;
    var r := Arrange(k);
    var w := SortedWaiting(k);
    var n := Started(k, w, 0);
    SortedWaitingFacts(k);
    forall p ensures p in Dispatched(k, r) <==> p in w[..n] {
      ArrangeProcess(k, p);
    }
    forall p | p !in w[..n] ensures Same(k, r, p) {
      ArrangeProcess(k, p);
    }
    Cardinality(w[..n], Dispatched(k, r));
    StartedIs(k, w);
    forall p, q | q in w[..n] && p in w && p !in w[..n] ensures Stop(k, q) >= Stop(k, p) {
      EarlierIsGreater(k.stopTime, w, n, q, p);
    }
    if n < |w| {
      LeftOver(k);
    } else {
      assert w[..n] == w;
    }
  }

  lemma StartedIs(k: Kern, w: seq<int>)
    ensures Started(k, w, 0) == Min(FreeCores(k.cores, 0), |w|)
  {
  }

  lemma EarlierIsGreater(stop: map<int, int>, w: seq<int>, n: nat, q: int, p: int)
    requires Descending(stop, w) && n <= |w| && q in w[..n] && p in w && p !in w[..n]
    ensures StopIn(stop, q) >= StopIn(stop, p)
  {
    var i :| 0 <= i < n && w[i] == q;
    var j :| 0 <= j < |w| && w[j] == p;
  }

  lemma LeftOver(k: Kern)
    requires Inv(k) && Started(k, SortedWaiting(k), 0) < |SortedWaiting(k)|
    ensures var r := Arrange(k);
      forall j :: 0 <= j < |r.cores| ==> r.cores[j].vm != IDLE && (Overdue(r, r.cores[j].vm) ==> r.cores[j].signal)
  {
    hide Inv, SortedWaiting, Dispatch, CanStart, Distinct, Descending, Arrange, Started;
    var w := SortedWaiting(k);
    SortedWaitingFacts(k);
    ArrangeIs(k);
    DispatchKeeps(k, w, 0);
    var d := Dispatch(k, w, 0);
    assert d.rest != [];
    var r := SignalAll(d.k, |d.k.procs|);
    forall j | 0 <= j < |r.cores|
      ensures r.cores[j].vm != IDLE && (Overdue(r, r.cores[j].vm) ==> r.cores[j].signal)
    {
      DispatchCore(k, w, 0, j);
      PidRange(d.k, r.cores[j].vm);
    }
  }

  lemma PidRange(k: Kern, p: int)
    requires Inv(k)
    ensures p in k.procs ==> 1 <= p <= |k.procs|
  {
  }

  // ---------- cycles ----------

  function Cycle(k: Kern, outs: seq<Outcome>): (r: Kern)
    requires Inv(k) && |outs| == |k.cores|
    ensures Inv(r) && |r.cores| == |k.cores|
  {
    var b := BeforeArrange(k, outs);
    ArrangeKeeps(b);
    Arrange(b)
  }

  predicate Fits(k: Kern, run: seq<seq<Outcome>>) {
    forall i :: 0 <= i < |run| ==> |run[i]| == |k.cores|
  }

  /** Any number of cycles, whatever the cores do in them. */
  function Run(k: Kern, run: seq<seq<Outcome>>): (r: Kern)
    requires Inv(k) && Fits(k, run)
    ensures Inv(r)
    decreases |run|
  {
    if run == [] then k else Run(Cycle(k, run[0]), run[1..])
  }

  /** What each outcome means for the process p on core j: it goes on, ends, or is suspended and its core is free; only
      fork adds a process, and no other process changes. */
  lemma OutcomeOf(k: Kern, j: nat, o: Outcome)
    requires Inv(k) && j < |k.cores| && k.cores[j].vm != IDLE
    ensures var r := Handle(k, j, o); var p := k.cores[j].vm; var c := |k.procs| + 1;
      && (o == Continue ==> r == k)
      && (o in {Exit, Fault} ==> HasStatus(r, p, T) && p !in r.stopTime && p !in r.runTime)
      && (o !in {Continue, Exit, Fault} ==> HasStatus(r, p, S) && Stop(r, p) == 0)
      && (o != Continue ==> r.cores[j].vm == IDLE && r.procs[p].core == -1 && p !in r.runTime)
      && (forall i :: 0 <= i < |k.cores| && i != j ==> r.cores[i] == k.cores[i])
      && (forall q :: q != p ==> RunTime(r, q) == RunTime(k, q))
      && (r.procs.Keys == if o == Fork then k.procs.Keys + {c} else k.procs.Keys)
      && (o == Fork ==> r.procs[c] == k.procs[p].(status := S) && Stop(r, c) == 0)
      && (o.WaitPid? ==>
            (Eligible(r, p) <==> !(o.pid > 0 && o.pid in k.procs && !HasStatus(k, o.pid, T))))
      && (!o.WaitPid? && o != Continue ==> r.procs[p].waiting == k.procs[p].waiting)
      && forall q :: q in k.procs && q != p ==> Same(k, r, q)
  {
    if o == Fork {
      AddChildKeeps(k, k.cores[j].vm);
    }
    hide NewPid;
    var p := k.cores[j].vm;
    assert Handle(k, j, o).procs.Keys == if o == Fork then k.procs.Keys + {|k.procs| + 1} else k.procs.Keys;
  }

  /** What handling an outcome does to process q: suspended processes are not touched, newly suspended ones start from
      stop time 0, what has ended stays so, one that goes on running keeps its run time, and one that stops loses it. */
  ghost predicate Handled(k: Kern, r: Kern, q: int) {
    && (HasStatus(k, q, S) ==> HasStatus(r, q, S) && r.procs[q] == k.procs[q] && Stop(r, q) == Stop(k, q))
    && (HasStatus(r, q, S) && !HasStatus(k, q, S) ==> Stop(r, q) == 0)
    && (HasStatus(k, q, T) ==> HasStatus(r, q, T))
    && (q in k.procs ==> q in r.procs)
    && (HasStatus(r, q, R) ==> HasStatus(k, q, R))
    && RunTime(r, q) == if HasStatus(k, q, R) && !HasStatus(r, q, R) then 0 else RunTime(k, q)
  }

  lemma HandleProcess(k: Kern, j: nat, o: Outcome, q: int)
    requires Inv(k) && j < |k.cores|
    ensures Handled(k, Handle(k, j, o), q)
  {
    var p := k.cores[j].vm;
    if p != IDLE {
      OutcomeOf(k, j, o);
      PidRange(k, |k.procs| + 1);
      hide Handle;
      assert q in Handle(k, j, o).procs <==> q in Handle(k, j, o).procs.Keys;
      assert q in k.procs <==> q in k.procs.Keys;
    }
  }

  lemma {:induction false} HandleAllProcess(k: Kern, outs: seq<Outcome>, j: nat, q: int)
    requires Inv(k) && |outs| == |k.cores| && j <= |outs|
    ensures Handled(k, HandleAll(k, outs, j), q)
    decreases |outs| - j
  {
    hide Inv, Handle;
    if j < |outs| {
      HandleProcess(k, j, outs[j], q);
      HandleAllProcess(Handle(k, j, outs[j]), outs, j + 1, q);
    }
  }

  /** Before arrange, every suspended process has aged by one cycle, and one that was not suspended has age one. */
  lemma Aging(k: Kern, outs: seq<Outcome>, q: int)
    requires Inv(k) && |outs| == |k.cores|
    ensures var b := BeforeArrange(k, outs);
      && (HasStatus(k, q, S) ==> HasStatus(b, q, S) && Stop(b, q) == Stop(k, q) + 1)
      && (HasStatus(b, q, S) && !HasStatus(k, q, S) ==> Stop(b, q) == 1)
      && (HasStatus(k, q, T) ==> HasStatus(b, q, T))
      && (q in k.procs ==> q in b.procs)
  {
    hide Inv, HandleAll;
    var k' := HandleAll(TakeSignals(k), outs, 0);
    HandleAllProcess(TakeSignals(k), outs, 0, q);
    PidRange(k', q);
  }

  /** Before arrange, a process that keeps running has run for one more cycle, one that leaves its core has lost its run
      time, and all others have theirs as before. */
  lemma RunTimes(k: Kern, outs: seq<Outcome>, q: int)
    requires Inv(k) && |outs| == |k.cores|
    ensures var b := BeforeArrange(k, outs);
      && (HasStatus(b, q, R) ==> HasStatus(k, q, R))
      && RunTime(b, q) == if HasStatus(b, q, R) then RunTime(k, q) + 1
                          else if HasStatus(k, q, R) then 0 else RunTime(k, q)
  {
    hide Inv, HandleAll;
    var k' := HandleAll(TakeSignals(k), outs, 0);
    HandleAllProcess(TakeSignals(k), outs, 0, q);
    PidRange(k', q);
  }

  /** The core of a process that stays on it is not touched by an outcome, nor by those of all cores. */
  lemma HandleCore(k: Kern, j: nat, o: Outcome, p: int)
    requires Inv(k) && j < |k.cores| && HasStatus(k, p, R) && HasStatus(Handle(k, j, o), p, R)
    ensures var r := Handle(k, j, o); var c := k.procs[p].core;
      OnCore(k, c, p) && r.procs[p].core == c && r.cores[c] == k.cores[c]
  {
    RunningCore(k, p);
    if k.cores[j].vm == IDLE {
      IdleCore(k, j, o);
    } else {
      OutcomeOf(k, j, o);
    }
    hide Inv, Handle, Stalled, Eligible;
  }

  lemma {:induction false} HandleAllCore(k: Kern, outs: seq<Outcome>, j: nat, p: int)
    requires Inv(k) && |outs| == |k.cores| && j <= |outs| && HasStatus(k, p, R)
    requires HasStatus(HandleAll(k, outs, j), p, R)
    ensures var r := HandleAll(k, outs, j); var c := k.procs[p].core;
      OnCore(k, c, p) && r.procs[p].core == c && r.cores[c] == k.cores[c]
    decreases |outs| - j
  {
    hide Inv, Handle, HandleAll, Stalled, Eligible;
    if j < |outs| {
      HandleAllStep(k, outs, j);
      var k' := Handle(k, j, outs[j]);
      HandleAllProcess(k', outs, j + 1, p);
      HandleCore(k, j, outs[j], p);
      HandleAllCore(k', outs, j + 1, p);
    } else {
      NoMoreOutcomes(k, outs);
      RunningCore(k, p);
    }
  }

  lemma HandleAllStep(k: Kern, outs: seq<Outcome>, j: nat)
    requires Inv(k) && |outs| == |k.cores| && j < |outs|
    ensures HandleAll(k, outs, j) == HandleAll(Handle(k, j, outs[j]), outs, j + 1)
  {
    hide Inv, Handle;
  }

  lemma NoMoreOutcomes(k: Kern, outs: seq<Outcome>)
    requires Inv(k) && |outs| == |k.cores|
    ensures HandleAll(k, outs, |outs|) == k
  {
    hide Inv, Handle;
  }

  lemma IdleCore(k: Kern, j: nat, o: Outcome)
    requires Inv(k) && j < |k.cores| && k.cores[j].vm == IDLE
    ensures Handle(k, j, o) == k
  {
  }

  /** A suspended process that waits for another one is held until exactly the outcome that ends that one. */
  lemma StallEnds(k: Kern, j: nat, o: Outcome, p: int)
    requires Inv(k) && j < |k.cores| && HasStatus(k, p, S) && Stalled(k, p)
    ensures var r := Handle(k, j, o);
      HasStatus(r, p, S) && (Eligible(r, p) <==> k.cores[j].vm == k.procs[p].waiting && o in {Exit, Fault})
  {
    var q := k.cores[j].vm;
    var w := k.procs[p].waiting;
    HandleProcess(k, j, o, p);
    HandleProcess(k, j, o, w);
    if q != IDLE {
      OutcomeOf(k, j, o);
      hide Handle, Inv;
    }
  }

  /** A process that has ended never runs or waits again, and no process ever disappears, so pids are not reused. */
  lemma {:induction false} EndedStaysEnded(k: Kern, run: seq<seq<Outcome>>, p: int)
    requires Inv(k) && Fits(k, run)
    ensures HasStatus(k, p, T) ==> HasStatus(Run(k, run), p, T)
    ensures p in k.procs ==> p in Run(k, run).procs
    decreases |run|
  {
    hide Inv, Arrange, BeforeArrange;
    if run != [] {
      var b := BeforeArrange(k, run[0]);
      Aging(k, run[0], p);
      ArrangeProcess(b, p);
      EndedStaysEnded(Cycle(k, run[0]), run[1..], p);
    }
  }

  ghost function BusyCores(k: Kern): set<int> {
    set j | 0 <= j < |k.cores| && k.cores[j].vm != IDLE
  }

  ghost function Running(k: Kern): set<int> {
    set p | p in k.procs && HasStatus(k, p, R)
  }

  /** Cores and processes that point at each other are equally many. */
  lemma {:induction false} PairedUp(k: Kern, js: set<int>, ps: set<int>)
    requires forall j :: j in js ==> 0 <= j < |k.cores| && k.cores[j].vm in ps
    requires forall p :: p in ps ==> p in k.procs && k.procs[p].core in js
    requires forall j :: j in js ==> k.procs[k.cores[j].vm].core == j
    requires forall p :: p in ps ==> OnCore(k, k.procs[p].core, p)
    ensures |js| == |ps|
    decreases |js|
  {
    if j :| j in js {
      var p := k.cores[j].vm;
      PairedUp(k, js - {j}, ps - {p});
    } else {
      assert forall p :: p !in ps;
      assert |ps| == 0;
      assert forall j :: j !in js;
      assert |js| == 0;
    }
  }

  /** One process per core over every run: a core holds a process exactly if that process is running and points back at
      the core, and pids are exactly 1..n. */
  lemma OneProcessPerCore(k: Kern, run: seq<seq<Outcome>>)
    requires Inv(k) && Fits(k, run)
    ensures var r := Run(k, run);
      && (forall p :: p in r.procs <==> 1 <= p <= |r.procs|)
      && (forall j, p :: 0 <= j < |r.cores| && p != IDLE ==>
            (r.cores[j].vm == p <==> HasStatus(r, p, R) && r.procs[p].core == j))
      && |BusyCores(r)| == |Running(r)|
  {
    hide Run;
    var r := Run(k, run);
    PairedUp(r, BusyCores(r), Running(r));
  }

  /** The first process on the first core, after init and the first context switch. */
  function Boot(cores: nat): Kern
    requires cores > 0
  {
    var k := Kern(seq(cores, j => Core(IDLE, false)), map[1 := Proc(S, NO_CORE, -1)], map[], map[]);
    ContextSwitch(k, 1, 0)
  }

  lemma BootInv(cores: nat)
    requires cores > 0
    ensures Inv(Boot(cores))
  {
  }

  // ---------- preemption ----------

  /** A process that waited for a core before arrange and still waits after it. */
  ghost predicate SomebodyWaits(b: Kern)
    requires Inv(b)
  {
    exists q :: Eligible(b, q) && HasStatus(Arrange(b), q, S)
  }

  lemma WaitsIfLeft(b: Kern)
    requires Inv(b)
    ensures CanStart(b, SortedWaiting(b))
    ensures SomebodyWaits(b) <==> Dispatch(b, SortedWaiting(b), 0).rest != []
  {
    hide Inv, SortedWaiting, Dispatch, CanStart, Distinct, Descending, Arrange, Started, Same, Stalled;
    var w := SortedWaiting(b);
    SortedWaitingFacts(b);
    DispatchKeeps(b, w, 0);
    var n := Started(b, w, 0);
    forall q ensures Eligible(b, q) && HasStatus(Arrange(b), q, S) <==> q in w[n..] {
      ArrangeProcess(b, q);
      TailOf(w, n, q);
      WaitingIsSuspended(b, Arrange(b), w, q);
    }
    if w[n..] != [] {
      var q := w[n..][0];
      assert q in w[n..];
      assert Eligible(b, q) && HasStatus(Arrange(b), q, S);
    } else {
      assert forall q :: q !in w[n..];
    }
  }

  /** In a list without repetition what is not at the front is at the back. */
  lemma TailOf(w: seq<int>, n: nat, q: int)
    requires n <= |w| && Distinct(w)
    ensures q in w[n..] <==> q in w && q !in w[..n]
  {
  }

  lemma WaitingIsSuspended(b: Kern, r: Kern, w: seq<int>, q: int)
    requires q in w ==> Eligible(b, q)
    ensures q in w && Same(b, r, q) ==> HasStatus(r, q, S)
    ensures HasStatus(r, q, R) ==> !HasStatus(r, q, S)
  {
  }

  /** After a cycle the core of a process that stays on it is signalled if and only if the process has now run for more
      than 50 cycles and somebody else still waits for a core. */
  lemma SignalExact(k: Kern, outs: seq<Outcome>, p: int)
    requires Inv(k) && |outs| == |k.cores| && HasStatus(k, p, R) && HasStatus(BeforeArrange(k, outs), p, R)
    ensures var b := BeforeArrange(k, outs); var r := Cycle(k, outs); var c := k.procs[p].core;
      && HasStatus(r, p, R) && r.procs[p].core == c && RunTime(r, p) == RunTime(k, p) + 1
      && OnCore(r, c, p) && (r.cores[c].signal <==> RunTime(k, p) + 1 > 50 && SomebodyWaits(b))
  {
    hide Inv, HandleAll, Dispatch, CanStart, SortedWaiting, Arrange, SomebodyWaits, SignalAll;
    var c := k.procs[p].core;
    HandleAllCore(TakeSignals(k), outs, 0, p);
    var b := BeforeArrange(k, outs);
    assert OnCore(k, c, p) && IDLE != p by { RunningCore(k, p); }
    assert b.cores[c] == Core(p, false);
    RunTimes(k, outs, p);
    var w := SortedWaiting(b);
    SortedWaitingFacts(b);
    NotWaiting(b, w, p);
    ArrangeIs(b);
    ArrangeProcess(b, p);
    WaitsIfLeft(b);
    DispatchCore(b, w, 0, c);
    DispatchProcess(b, w, 0, p);
    PidRange(b, p);
    var d := Dispatch(b, w, 0);
    PidRange(d.k, p);
  }

  lemma RunningCore(k: Kern, p: int)
    requires Inv(k) && HasStatus(k, p, R)
    ensures OnCore(k, k.procs[p].core, p) && p != IDLE
  {
  }

  lemma NotWaiting(b: Kern, w: seq<int>, p: int)
    requires HasStatus(b, p, R) && forall q :: q in w <==> Eligible(b, q)
    ensures p !in w && forall n: nat :: n <= |w| ==> p !in w[..n]
  {
  }

  /** p keeps its core over the run: it is still running when arrange begins, in every cycle. */
  ghost predicate KeepsCore(k: Kern, run: seq<seq<Outcome>>, p: int)
    requires Inv(k) && Fits(k, run)
    decreases |run|
  {
    run == [] || (HasStatus(BeforeArrange(k, run[0]), p, R) && KeepsCore(Cycle(k, run[0]), run[1..], p))
  }

  /** Run time counts the cycles. */
  lemma {:induction false} RunTimeCounts(k: Kern, run: seq<seq<Outcome>>, p: int)
    requires Inv(k) && Fits(k, run) && HasStatus(k, p, R) && KeepsCore(k, run, p)
    ensures var r := Run(k, run);
      && |r.cores| == |k.cores| && HasStatus(r, p, R) && r.procs[p].core == k.procs[p].core
      && RunTime(r, p) == RunTime(k, p) + |run|
    decreases |run|
  {
    hide Inv, Arrange, BeforeArrange, Cycle, SomebodyWaits;
    if run != [] {
      SignalExact(k, run[0], p);
      RunTimeCounts(Cycle(k, run[0]), run[1..], p);
    }
  }

  /** The time slice, over whole runs: a process that was just dispatched and keeps its core is asked to give it up in
      the 51st cycle, and in every later one, exactly if somebody waits, and in none before. */
  lemma TimeSlice(k: Kern, run: seq<seq<Outcome>>, outs: seq<Outcome>, p: int)
    requires Inv(k) && Fits(k, run) && |outs| == |k.cores|
    requires HasStatus(k, p, R) && RunTime(k, p) == 0 && KeepsCore(k, run, p)
    requires |Run(k, run).cores| == |k.cores| ==> HasStatus(BeforeArrange(Run(k, run), outs), p, R)
    ensures |Run(k, run).cores| == |k.cores|
    ensures var b := BeforeArrange(Run(k, run), outs); var r := Cycle(Run(k, run), outs); var c := k.procs[p].core;
      OnCore(r, c, p) && (r.cores[c].signal <==> |run| + 1 >= 51 && SomebodyWaits(b))
  {
    hide Inv, Arrange, BeforeArrange, Cycle, SomebodyWaits, Run, KeepsCore;
    RunTimeCounts(k, run, p);
    SignalExact(Run(k, run), outs, p);
  }

  /** A process starts its slice at 0, on a core without signal. */
  lemma SliceStarts(b: Kern, p: int)
    requires Inv(b) && p in Dispatched(b, Arrange(b))
    ensures var r := Arrange(b);
      HasStatus(r, p, R) && RunTime(r, p) == 0 && OnCore(r, r.procs[p].core, p) && !r.cores[r.procs[p].core].signal
  {
    hide Inv, SortedWaiting, Dispatch, CanStart, Started, Arrange, SignalAll;
    var w := SortedWaiting(b);
    ArrangeIs(b);
    ArrangeProcess(b, p);
    ArrangeKeeps(b);
    SortedWaitingFacts(b);
    RunningCore(Arrange(b), p);
    DispatchedCore(b, w, 0, p);
    var d := Dispatch(b, w, 0);
    DispatchProcess(b, w, 0, p);
  }

  // ---------- bounded overtaking ----------

  /** The other suspended processes that have been stopped for at least as long as p. */
  ghost function Ahead(k: Kern, p: int): set<int> {
    set q | q in k.procs && q != p && HasStatus(k, q, S) && Stop(k, q) >= Stop(k, p)
  }

  /** p is passed over: it is eligible in every cycle of the run and still suspended at its end. */
  ghost predicate PassedOver(k: Kern, run: seq<seq<Outcome>>, p: int)
    requires Inv(k) && Fits(k, run)
    decreases |run|
  {
    run == [] ||
    (Eligible(BeforeArrange(k, run[0]), p) && HasStatus(Cycle(k, run[0]), p, S)
     && PassedOver(Cycle(k, run[0]), run[1..], p))
  }

  /** How many processes are dispatched in the run. */
  ghost function Dispatches(k: Kern, run: seq<seq<Outcome>>): nat
    requires Inv(k) && Fits(k, run)
    decreases |run|
  {
    if run == [] then 0 else
    |Dispatched(BeforeArrange(k, run[0]), Cycle(k, run[0]))| + Dispatches(Cycle(k, run[0]), run[1..])
  }

  /** Who is dispatched while p is passed over was ahead of p. */
  lemma OnlyThoseAhead(b: Kern, p: int)
    requires Inv(b) && Eligible(b, p) && HasStatus(Arrange(b), p, S)
    ensures Dispatched(b, Arrange(b)) <= Ahead(b, p)
  {
    hide Inv, Arrange, Same, FreeCores, Stalled;
    ArrangeDispatches(b);
    assert p in Eligibles(b);
    assert p !in Dispatched(b, Arrange(b));
  }

  /** Nobody new gets ahead of p: later suspensions and children start from stop time 1, when p is at 2 or more. */
  lemma AheadShrinks(b: Kern, outs: seq<Outcome>, p: int)
    requires Inv(b) && Timed(b) && |outs| == |Arrange(b).cores| && Inv(Arrange(b))
    requires HasStatus(b, p, S) && HasStatus(Arrange(b), p, S)
    ensures Ahead(BeforeArrange(Arrange(b), outs), p) <= Ahead(b, p) - Dispatched(b, Arrange(b))
  {
    hide Inv, Arrange, BeforeArrange;
    var r := Arrange(b);
    var b' := BeforeArrange(r, outs);
    Aging(r, outs, p);
    ArrangeProcess(b, p);
    assert Stop(r, p) == Stop(b, p) >= 1;
    forall q | q in Ahead(b', p) ensures q in Ahead(b, p) && q !in Dispatched(b, r) {
      Aging(r, outs, q);
      ArrangeProcess(b, q);
    }
  }

  /** However long the run and however many forks, suspensions and exits it has, while p is passed over no more
      processes are dispatched than were ahead of p at its start, which is fewer than there were processes. */
  lemma {:induction false} BoundedOvertaking(k: Kern, run: seq<seq<Outcome>>, p: int)
    requires Inv(k) && Fits(k, run) && run != [] && PassedOver(k, run, p)
    ensures var b := BeforeArrange(k, run[0]);
      Dispatches(k, run) <= |Ahead(b, p)| <= |b.procs| - 1
    decreases |run|
  {
    hide Inv, Arrange, BeforeArrange, Ahead, Dispatched;
    var b := BeforeArrange(k, run[0]);
    var r := Cycle(k, run[0]);
    OnlyThoseAhead(b, p);
    AheadOthers(b, p);
    if |run| > 1 {
      BoundedOvertaking(r, run[1..], p);
      AheadShrinks(b, run[1], p);
      SmallerSet(Ahead(BeforeArrange(r, run[1]), p), Ahead(b, p) - Dispatched(b, r));
    } else {
      assert Dispatches(r, run[1..]) == 0;
    }
    SmallerSet(Dispatched(b, r), Ahead(b, p));
    assert |Ahead(b, p) - Dispatched(b, r)| == |Ahead(b, p)| - |Dispatched(b, r)|;
  }

  /** The cycles of the run in which arrange finds a free core. */
  ghost function FreeCycles(k: Kern, run: seq<seq<Outcome>>): nat
    requires Inv(k) && Fits(k, run)
    decreases |run|
  {
    if run == [] then 0 else
    (if FreeCores(BeforeArrange(k, run[0]).cores, 0) > 0 then 1 else 0) + FreeCycles(Cycle(k, run[0]), run[1..])
  }

  /** A free core is always given away while somebody waits for it. */
  lemma SomebodyStarts(b: Kern, p: int)
    requires Inv(b) && Eligible(b, p) && FreeCores(b.cores, 0) > 0
    ensures |Dispatched(b, Arrange(b))| >= 1
  {
    hide Inv, Arrange, Same, FreeCores, Eligible, Dispatched;
    ArrangeDispatches(b);
    assert p in Eligibles(b) by { EligibleIn(b, p); }
    SmallerSet({p}, Eligibles(b));
  }

  lemma EligibleIn(b: Kern, p: int)
    requires Eligible(b, p)
    ensures p in Eligibles(b)
  {
  }

  /** A free core does not pass it by for long either: that happens in fewer cycles than there were
      processes. */
  lemma {:induction false} BoundedWaiting(k: Kern, run: seq<seq<Outcome>>, p: int)
    requires Inv(k) && Fits(k, run) && run != [] && PassedOver(k, run, p)
    ensures FreeCycles(k, run) <= |BeforeArrange(k, run[0]).procs| - 1
  {
    hide Inv, Arrange, BeforeArrange, Ahead, Dispatched;
    BoundedOvertaking(k, run, p);
    FreeCyclesDispatch(k, run, p);
  }

  lemma {:induction false} FreeCyclesDispatch(k: Kern, run: seq<seq<Outcome>>, p: int)
    requires Inv(k) && Fits(k, run) && PassedOver(k, run, p)
    ensures FreeCycles(k, run) <= Dispatches(k, run)
    decreases |run|
  {
    hide Inv, Arrange, BeforeArrange, Dispatched, Eligible, FreeCores;
    if run != [] {
      var b := BeforeArrange(k, run[0]);
      if FreeCores(b.cores, 0) > 0 {
        SomebodyStarts(b, p);
      }
      FreeCyclesDispatch(Cycle(k, run[0]), run[1..], p);
    }
  }

  lemma AheadOthers(b: Kern, p: int)
    requires p in b.procs
    ensures |Ahead(b, p)| <= |b.procs| - 1
  {
    SmallerSet(Ahead(b, p), b.procs.Keys - {p});
  }

  lemma {:induction false} SmallerSet(s: set<int>, t: set<int>)
    requires s <= t
    ensures |s| <= |t| && |t - s| == |t| - |s|
  {
    assert t == s + (t - s);
  }
}
