/** Runs of the scheduler: the starvation bound. */
module SchedRuns {
  import opened Common
  import opened Sched

  datatype State = State(ready: seq<Pid>, procs: map<Pid, Proc>, log: seq<Pid>)

  /** What can happen to the ready queue: a hart reschedules (its process joining the queue first if it can
      go on, position k then being picked), a process becomes ready, one is killed, one is retuned. */
  datatype Event =
    | Resched(h: Hart, current: Option<Pid>, k: nat)
    | Enqueue(q: Pid)
    | Kill(q: Pid)
    | Tune(q: Pid, taskId: int, workload: int, nice: int)

  function Queue(s: State, e: Event): seq<Pid> {
    if e.Resched? && e.current.Some? then s.ready + [e.current.value] else s.ready
  }

  ghost predicate FairAt(procs: map<Pid, Proc>, p: Pid) { p in procs ==> procs[p].Fair() }

  ghost predicate AllFair(procs: map<Pid, Proc>) { forall p :: FairAt(procs, p) }

  ghost predicate Inv(s: State) {
    CountsOk(s.procs, s.log) && Distinct(s.ready) && forall i :: 0 <= i < |s.ready| ==> s.ready[i] in s.procs
  }

  ghost predicate Legal(s: State, e: Event) {
    match e
    case Resched(h, current, k) =>
      && (current.Some? ==> current.value in s.procs && current.value !in s.ready)
      && ProcsOk(s.procs, Queue(s, e)) && Chosen(s.procs, Queue(s, e), h, k)
    case Enqueue(q) => q in s.procs && q !in s.ready
    case Kill(q) => true
    case Tune(q, _, _, _) => q in s.procs
  }

  ghost function Step(s: State, e: Event): State
    requires Legal(s, e)
  {
    match e
    case Resched(h, current, k) =>
      var q := Queue(s, e);
      State(Without(q, k), AfterPick(s.procs, s.log, q[k]), s.log + [q[k]])
    case Enqueue(q) => s.(ready := s.ready + [q])
    case Kill(q) => s.(ready := RemoveFrom(s.ready, q))
    case Tune(q, taskId, workload, nice) =>
      s.(procs := s.procs[q := s.procs[q].(taskId := taskId, workload := workload, nice := nice)])
  }

  lemma {:induction false} RemoveFromFacts(q: seq<Pid>, p: Pid, x: Pid)
    requires Distinct(q)
    ensures Distinct(RemoveFrom(q, p)) && (x in RemoveFrom(q, p) ==> x in q)
    ensures x != p && x in q ==> x in RemoveFrom(q, p) && Ahead(RemoveFrom(q, p), x) <= Ahead(q, x)
  {
    if q != [] {
      assert q == [q[0]] + q[1..];
      RemoveFromFacts(q[1..], p, x);
      if q[0] != p {
        RemoveFromFacts(q[1..], p, q[0]);
        var r := RemoveFrom(q, p);
        assert r[1..] == RemoveFrom(q[1..], p);
      }
    }
  }

  /** How many processes stand before p. */
  function Ahead(q: seq<Pid>, p: Pid): (n: nat)
    ensures n <= |q| && (p in q ==> n < |q| && q[n] == p)
    ensures forall i :: 0 <= i < n ==> q[i] != p
  {
    if q == [] || q[0] == p then 0 else 1 + Ahead(q[1..], p)
  }

  lemma AheadIs(q: seq<Pid>, p: Pid, i: nat)
    requires i < |q| && q[i] == p && forall j :: 0 <= j < i ==> q[j] != p
    ensures Ahead(q, p) == i
  {
  }

  lemma WithoutFacts(q: seq<Pid>, k: nat, p: Pid)
    requires Distinct(q) && k < |q|
    ensures Distinct(Without(q, k)) && forall x :: x in Without(q, k) ==> x in q
    ensures p in q && q[k] != p ==>
              p in Without(q, k) && Ahead(Without(q, k), p) == Ahead(q, p) - if k < Ahead(q, p) then 1 else 0
  {
    var r := Without(q, k);
    if p in q && q[k] != p {
      var i := Ahead(q, p);
      var i' := if k < i then i - 1 else i;
      assert r[i'] == p;
      AheadIs(r, p, i');
    }
  }

  lemma ReschedKeeps(s: State, e: Event)
    requires Inv(s) && Legal(s, e) && e.Resched?
    ensures Inv(Step(s, e))
  {
    var s', q := Step(s, e), Queue(s, e);
    assert Distinct(q);
    AfterPickCounts(s.procs, s.log, q[e.k]);
    WithoutFacts(q, e.k, 0);
  }

  /** Every event keeps the invariant. */
  lemma StepKeeps(s: State, e: Event)
    requires Inv(s) && Legal(s, e)
    ensures Inv(Step(s, e))
  {
    var s' := Step(s, e);
    match e
    case Resched(_, _, _) =>
      ReschedKeeps(s, e);
    case Enqueue(q) =>
    case Kill(q) =>
      RemoveFromFacts(s.ready, q, 0);
      forall i | 0 <= i < |s'.ready| ensures s'.ready[i] in s.procs {
        RemoveFromFacts(s.ready, q, s'.ready[i]);
      }
    case Tune(q, taskId, workload, nice) =>
  }

  // ---- starvation ----

  /** While p waits: all processes are fair, nobody kills or retunes p, and whenever one of its harts reschedules, no
      queued
      process that could run there has a smaller task id. */
  ghost predicate Undisturbed(s: State, e: Event, p: Pid) {
    p in s.procs && AllFair(s.procs) && match e
    case Resched(h, _, _) =>
      h in s.procs[p].affinity ==>
        forall j :: 0 <= j < |Queue(s, e)| && Eligible(s.procs, Queue(s, e)[j], h) ==>
          s.procs[p].taskId <= s.procs[Queue(s, e)[j]].taskId
    case Kill(q) => q != p
    case Tune(q, _, _, _) => q != p
    case _ => true
  }

  ghost predicate PicksFor(s: State, e: Event, p: Pid) {
    e.Resched? && p in s.procs && e.h in s.procs[p].affinity
  }

  /** On one of its harts, a process that has not run lately loses only to processes before it in the queue. */
  lemma ChosenAhead(s: State, e: Event, p: Pid)
    requires Inv(s) && Legal(s, e) && Undisturbed(s, e, p) && PicksFor(s, e, p)
    requires p in s.ready && p >= NR_CPUS && p !in Window(s.log)
    ensures e.k <= Ahead(Queue(s, e), p)
  {
    var q := Queue(s, e);
    var i := Ahead(q, p);
    CountBound(Window(s.log), p);
    CountBound(Window(s.log), q[e.k]);
    assert FairAt(s.procs, p) && FairAt(s.procs, q[e.k]);
    assert Eligible(s.procs, q[i], e.h);
    assert BestOf(s.procs, q, e.h, |q|, e.k);
    assert Beats(s.procs, q, e.k, i);
  }

  lemma StillOutside(log: seq<Pid>, q: Pid, p: Pid)
    requires p !in Window(log) && q != p
    ensures p !in Window(log + [q])
  {
    WindowStep(log, q, p);
    CountBound(Window(log), p);
    CountBound(Window(log + [q]), p);
  }

  /** Picking changes slice counts only. */
  lemma PickKeepsAffinity(procs: map<Pid, Proc>, log: seq<Pid>, q: Pid, p: Pid)
    requires p in procs
    ensures p in AfterPick(procs, log, q) && AfterPick(procs, log, q)[p].affinity == procs[p].affinity
  {
  }

  lemma ReschedQueue(s: State, e: Event, p: Pid)
    requires Inv(s) && Legal(s, e) && Undisturbed(s, e, p) && e.Resched?
    requires p in s.ready && p >= NR_CPUS && p !in Window(s.log) && Queue(s, e)[e.k] != p
    ensures var s' := Step(s, e);
      p in s'.ready && Ahead(s'.ready, p) <= Ahead(s.ready, p) - if PicksFor(s, e, p) then 1 else 0
  {
    var q := Queue(s, e);
    AheadIs(q, p, Ahead(s.ready, p));
    WithoutFacts(q, e.k, p);
    if PicksFor(s, e, p) { ChosenAhead(s, e, p); }
  }

  lemma ReschedAhead(s: State, e: Event, p: Pid)
    requires Inv(s) && Legal(s, e) && Undisturbed(s, e, p) && e.Resched?
    requires p in s.ready && p >= NR_CPUS && p !in Window(s.log)
    ensures var s' := Step(s, e);
      && p in s'.procs && s'.procs[p].affinity == s.procs[p].affinity
      && (s'.log != s.log + [p] ==>
           && p in s'.ready && p !in Window(s'.log)
           && Ahead(s'.ready, p) <= Ahead(s.ready, p) - if PicksFor(s, e, p) then 1 else 0)
  {
    var q := Queue(s, e);
    PickKeepsAffinity(s.procs, s.log, q[e.k], p);
    if q[e.k] != p {
      ReschedQueue(s, e, p);
      StillOutside(s.log, q[e.k], p);
    }
  }

  lemma StepAhead(s: State, e: Event, p: Pid)
    requires Inv(s) && Legal(s, e) && Undisturbed(s, e, p)
    requires p in s.ready && p >= NR_CPUS && p !in Window(s.log)
    ensures var s' := Step(s, e);
      && p in s'.procs && s'.procs[p].affinity == s.procs[p].affinity
      && (s'.log != s.log + [p] ==>
           && p in s'.ready && p !in Window(s'.log)
           && Ahead(s'.ready, p) <= Ahead(s.ready, p) - if PicksFor(s, e, p) then 1 else 0)
  {
    var s' := Step(s, e);
    match e
    case Resched(h, current, k) =>
      ReschedAhead(s, e, p);
    case Enqueue(q) =>
      AheadIs(s'.ready, p, Ahead(s.ready, p));
    case Kill(q) =>
      RemoveFromFacts(s.ready, q, p);
    case Tune(q, taskId, workload, nice) =>
  }

  /** A run from s: each event is legal when it happens. */
  ghost predicate Run(s: State, es: seq<Event>)
    decreases |es|
  {
    es == [] || (Legal(s, es[0]) && Run(Step(s, es[0]), es[1..]))
  }

  ghost function Final(s: State, es: seq<Event>): State
    requires Run(s, es)
    decreases |es|
  {
    if es == [] then s else Final(Step(s, es[0]), es[1..])
  }

  /** Throughout the run p is left alone. */
  ghost predicate Waits(s: State, es: seq<Event>, p: Pid)
    requires Run(s, es)
    decreases |es|
  {
    es == [] || (Undisturbed(s, es[0], p) && Waits(Step(s, es[0]), es[1..], p))
  }

  /** Number of reschedulings in the run by harts that may run p. */
  ghost function Chances(s: State, es: seq<Event>, p: Pid): nat
    requires Run(s, es)
    decreases |es|
  {
    if es == [] then 0 else (if PicksFor(s, es[0], p) then 1 else 0) + Chances(Step(s, es[0]), es[1..], p)
  }

  /** p is picked at some point of the run. */
  ghost predicate Picked(s: State, es: seq<Event>, p: Pid)
    requires Run(s, es)
    decreases |es|
  {
    es != [] && (Step(s, es[0]).log == s.log + [p] || Picked(Step(s, es[0]), es[1..], p))
  }

  /** A queued process with no pick in the window is picked within (processes ahead of it + 1) chances. */
  lemma {:induction false} PickedInTime(s: State, es: seq<Event>, p: Pid)
    requires Inv(s) && Run(s, es) && Waits(s, es, p)
    requires p in s.ready && p >= NR_CPUS && p !in Window(s.log)
    requires Chances(s, es, p) > Ahead(s.ready, p)
    ensures Picked(s, es, p)
    decreases |es|
  {
    if Step(s, es[0]).log != s.log + [p] {
      StepKeeps(s, es[0]);
      StepAhead(s, es[0], p);
      PickedInTime(Step(s, es[0]), es[1..], p);
    }
  }

  ghost function Picks(es: seq<Event>): nat
    decreases |es|
  {
    if es == [] then 0 else (if es[0].Resched? then 1 else 0) + Picks(es[1..])
  }

  lemma {:induction false} LogGrows(s: State, es: seq<Event>, p: Pid)
    requires Run(s, es) && !Picked(s, es, p)
    ensures |Final(s, es).log| == |s.log| + Picks(es) && s.log <= Final(s, es).log
    ensures p !in Final(s, es).log[|s.log|..]
    decreases |es|
  {
    if es != [] {
      var s' := Step(s, es[0]);
      LogGrows(s', es[1..], p);
      var l := Final(s, es).log;
      assert l[|s.log|..] == (if es[0].Resched? then [l[|s.log|]] else []) + l[|s'.log|..];
    }
  }

  lemma {:induction false} RunKeeps(s: State, es: seq<Event>)
    requires Inv(s) && Run(s, es)
    ensures Inv(Final(s, es))
    decreases |es|
  {
    if es != [] {
      StepKeeps(s, es[0]);
      RunKeeps(Step(s, es[0]), es[1..]);
    }
  }

  /** The starvation bound: once 200 picks have gone by without p, its slice count is 0, and if it is then
      queued, as many chances as there are processes before it plus one are enough for it to be picked. */
  lemma StarvationBound(s: State, es: seq<Event>, es': seq<Event>, p: Pid)
    requires Inv(s) && Run(s, es) && !Picked(s, es, p) && Picks(es) >= 200
    requires p >= NR_CPUS && p in Final(s, es).ready
    requires Run(Final(s, es), es') && Waits(Final(s, es), es', p)
    requires Chances(Final(s, es), es', p) > Ahead(Final(s, es).ready, p)
    ensures p in Final(s, es).procs && Final(s, es).procs[p].sliceCnt == 0
    ensures Picked(Final(s, es), es', p)
  {
    var m := Final(s, es);
    RunKeeps(s, es);
    LogGrows(s, es, p);
    var w := Window(m.log);
    assert forall x :: x in w ==> x in m.log[|s.log|..] by {
      assert w == m.log[|s.log|..][|m.log| - |s.log| - |w|..];
    }
    CountBound(w, p);
    assert exists i :: 0 <= i < |m.ready| && m.ready[i] == p;
    PickedInTime(m, es', p);
  }

  // ---- an unfair process ----

  /** Process 2 waits; process 3 had all of the last 200 slices. */
  function Unfair(n: nat, workload: int, nice: int): State {
    State([2], UnfairProcs(workload, nice), Threes(TIME_SLICE_HISTORY_SIZE + n))
  }

  function UnfairProcs(workload: int, nice: int): map<Pid, Proc> {
    map[2 := Proc(0, 0, 0, {0}, 0), 3 := Proc(0, workload, nice, {0}, TIME_SLICE_HISTORY_SIZE)]
  }

  /** n picks of process 3. */
  function Threes(n: nat): seq<Pid> { seq(n, _ => 3) }

  lemma {:induction false} CountThrees(n: nat, p: Pid)
    ensures Count(Threes(n), p) == if p == 3 then n else 0
  {
    if n > 0 {
      assert Threes(n)[1..] == Threes(n - 1);
      CountThrees(n - 1, p);
    }
  }

  lemma UnfairInv(n: nat, workload: int, nice: int)
    ensures Inv(Unfair(n, workload, nice)) && |Unfair(n, workload, nice).log| == TIME_SLICE_HISTORY_SIZE + n
    ensures Unfair(n, workload, nice).log[n] == 3
    ensures Unfair(n, workload, nice).log + [3] == Unfair(n + 1, workload, nice).log
  {
    assert Window(Threes(TIME_SLICE_HISTORY_SIZE + n)) == Threes(TIME_SLICE_HISTORY_SIZE);
    CountThrees(TIME_SLICE_HISTORY_SIZE, 2);
    CountThrees(TIME_SLICE_HISTORY_SIZE, 3);
  }

  /** Of two user processes of one task id, the lighter is chosen. */
  lemma LighterChosen(procs: map<Pid, Proc>, a: Pid, b: Pid, h: Hart, p: Proc, q: Proc)
    requires Runs(procs, a, h) && Runs(procs, b, h) && a >= NR_CPUS && b >= NR_CPUS && procs[a] == p && procs[b] == q
    requires p.taskId == q.taskId < MIN_START && Before(q, p)
    ensures ProcsOk(procs, [a, b]) && Chosen(procs, [a, b], h, 1)
  {
    var q := [a, b];
    assert Eligible(procs, q[1], h);
    assert BestOf(procs, q, h, 2, 1);
  }

  lemma BlankWeighsNothing(p: Proc)
    requires p.sliceCnt == 0 && p.workload == 0 && p.nice == 0
    ensures p.Weight() == 0
  {
    ModestWeight(p.sliceCnt, p.workload, p.nice);
  }

  lemma UnfairWeighsLess(p: Proc)
    requires p.sliceCnt == TIME_SLICE_HISTORY_SIZE && -201 <= p.workload <= -1 && 0 <= p.nice <= 10_000_000
    ensures p.Weight() < 0
  {
    UnfairWeight(p.workload, p.nice);
  }

  lemma UnfairBefore(p: Proc, q: Proc)
    requires p.sliceCnt == 0 && p.workload == 0 && p.nice == 0 && p.taskId == q.taskId
    requires q.sliceCnt == TIME_SLICE_HISTORY_SIZE && -201 <= q.workload <= -1 && 0 <= q.nice <= 10_000_000
    ensures Before(q, p)
  {
    BlankWeighsNothing(p);
    UnfairWeighsLess(q);
  }

  lemma UnfairChosen(procs: map<Pid, Proc>, workload: int, nice: int)
    requires procs == UnfairProcs(workload, nice) && -201 <= workload <= -1 && 0 <= nice <= 10_000_000
    ensures ProcsOk(procs, [2, 3]) && Chosen(procs, [2, 3], 0, 1)
  {
    var p, q := procs[2], procs[3];
    UnfairBefore(p, q);
    LighterChosen(procs, 2, 3, 0, p, q);
  }

  lemma UnfairCounts(log: seq<Pid>, workload: int, nice: int)
    requires |log| >= TIME_SLICE_HISTORY_SIZE && log[|log| - TIME_SLICE_HISTORY_SIZE] == 3
    ensures AfterPick(UnfairProcs(workload, nice), log, 3) == UnfairProcs(workload, nice)
  {
  }

  /** Hart 0 reschedules: process 3 is picked again, and everything is as before. */
  lemma UnfairStep(n: nat, workload: int, nice: int)
    requires -201 <= workload <= -1 && 0 <= nice <= 10_000_000
    ensures Legal(Unfair(n, workload, nice), Resched(0, Some(3), 1))
    ensures PicksFor(Unfair(n, workload, nice), Resched(0, Some(3), 1), 2)
    ensures Step(Unfair(n, workload, nice), Resched(0, Some(3), 1)) == Unfair(n + 1, workload, nice)
  {
    UnfairInv(n, workload, nice);
    UnfairChosen(UnfairProcs(workload, nice), workload, nice);
    UnfairCounts(Unfair(n, workload, nice).log, workload, nice);
    assert Queue(Unfair(n, workload, nice), Resched(0, Some(3), 1)) == [2, 3] && Without([2, 3], 1) == [2];
  }

  /** The bound is lost if one process is not fair: for every workload that makes process 3 unfair, process 2, first in
      the queue and with no pick in the window, can be passed over any number of times. */
  lemma {:induction false} UnfairStarves(n: nat, k: nat, workload: int, nice: int) returns (es: seq<Event>)
    requires -0x8000_0000 <= workload < 0x8000_0000 && 0 <= nice <= 10_000_000
    requires !Proc(0, workload, nice, {0}, TIME_SLICE_HISTORY_SIZE).Fair()
    ensures Inv(Unfair(n, workload, nice)) && Run(Unfair(n, workload, nice), es)
    ensures Chances(Unfair(n, workload, nice), es, 2) == k && !Picked(Unfair(n, workload, nice), es, 2)
    decreases k
  {
    FairIff(Proc(0, workload, nice, {0}, TIME_SLICE_HISTORY_SIZE));
    UnfairInv(n, workload, nice);
    es := [];
    if k > 0 {
      var e := Resched(0, Some(3), 1);
      UnfairStep(n, workload, nice);
      var rest := UnfairStarves(n + 1, k - 1, workload, nice);
      es := [e] + rest;
      assert es[1..] == rest;
      assert Unfair(n, workload, nice).log + [2] != Unfair(n + 1, workload, nice).log by {
        assert Unfair(n + 1, workload, nice).log[|Unfair(n, workload, nice).log|] == 3;
      }
    }
  }

  // ---- the scheduler itself ----

  /** What is asked of the scheduler; which process is picked is its own choice. */
  datatype Call =
    | Schedule(h: Hart, current: Option<Pid>)
    | Ready(q: Pid)
    | Drop(q: Pid)
    | Set(q: Pid, taskId: int, workload: int, nice: int)

  predicate Matches(e: Event, c: Call) {
    match c
    case Schedule(h, current) => e.Resched? && e.h == h && e.current == current
    case Ready(q) => e == Enqueue(q)
    case Drop(q) => e == Kill(q)
    case Set(q, taskId, workload, nice) => e == Tune(q, taskId, workload, nice)
  }

  /** A hart that reschedules has something to run, its own process is not queued, and what becomes ready is not
      queued yet. */
  predicate Callable(ready: seq<Pid>, procs: map<Pid, Proc>, c: Call) {
    match c
    case Schedule(h, current) =>
      && (current.Some? ==> current.value in procs && current.value !in ready)
      && ((current.Some? && Runs(procs, current.value, h)) || exists i :: 0 <= i < |ready| && Runs(procs, ready[i], h))
    case Ready(q) => q in procs && q !in ready
    case Drop(_) => true
    case Set(q, _, _, _) => q in procs
  }

  ghost function StateOf(s: Scheduler): State
    reads s
  {
    State(s.ready, s.procs, s.log)
  }

  /** Every call is a step of the model. */
  method Carry(s: Scheduler, c: Call) returns (ghost e: Event)
    requires s.Valid() && Inv(StateOf(s)) && Callable(s.ready, s.procs, c)
    modifies s
    ensures s.Valid() && Inv(StateOf(s)) && Matches(e, c)
    ensures Legal(old(StateOf(s)), e) && StateOf(s) == Step(old(StateOf(s)), e)
  {
    ghost var was := StateOf(s);
    match c {
      case Schedule(h, current) =>
        ghost var q := if current.Some? then s.ready + [current.value] else s.ready;
        assert current.Some? ==> q[|s.ready|] == current.value;
        assert forall i :: 0 <= i < |s.ready| ==> q[i] == s.ready[i];
        var _ := s.DoScheduler(h, current);
        ghost var k: nat :| ProcsOk(was.procs, q) && Chosen(was.procs, q, h, k) && s.ready == Without(q, k)
          && s.log == was.log + [q[k]] && s.procs == AfterPick(was.procs, was.log, q[k]);
        e := Resched(h, current, k);
      case Ready(q) =>
        s.Enqueue(q);
        e := Enqueue(q);
      case Drop(q) =>
        s.Remove(q);
        e := Kill(q);
      case Set(q, taskId, workload, nice) =>
        s.Tune(q, taskId, workload, nice);
        e := Tune(q, taskId, workload, nice);
    }
    StepKeeps(was, e);
  }

  lemma {:induction false} RunMore(s: State, es: seq<Event>, e: Event)
    requires Run(s, es) && Legal(Final(s, es), e)
    ensures Run(s, es + [e]) && Final(s, es + [e]) == Step(Final(s, es), e)
    decreases |es|
  {
    if es == [] {
      assert [e][1..] == [];
    } else {
      assert (es + [e])[1..] == es[1..] + [e];
      RunMore(Step(s, es[0]), es[1..], e);
    }
  }

  /** Any series of calls, up to the first that cannot be made, is a run of the model: what is proved of runs, the
      starvation bound above all, holds of the scheduler. */
  method Drive(s: Scheduler, calls: seq<Call>) returns (done: nat, ghost es: seq<Event>)
    requires s.Valid() && Inv(StateOf(s))
    modifies s
    ensures s.Valid() && Inv(StateOf(s)) && done == |es| <= |calls|
    ensures forall i :: 0 <= i < done ==> Matches(es[i], calls[i])
    ensures Run(old(StateOf(s)), es) && Final(old(StateOf(s)), es) == StateOf(s)
    ensures done < |calls| ==> !Callable(s.ready, s.procs, calls[done])
  {
    done, es := 0, [];
    ghost var was := StateOf(s);
    while done < |calls| && Callable(s.ready, s.procs, calls[done])
      invariant s.Valid() && Inv(StateOf(s)) && done == |es| <= |calls|
      invariant forall i :: 0 <= i < done ==> Matches(es[i], calls[i])
      invariant Run(was, es) && Final(was, es) == StateOf(s)
    {
      ghost var e := Carry(s, calls[done]);
      RunMore(was, es, e);
      es := es + [e];
      done := done + 1;
    }
  }
}
