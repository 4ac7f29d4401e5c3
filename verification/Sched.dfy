/** The least-consumption scheduler: which process is picked, what slice counts mean, and how long a
    ready process can be kept waiting. */
module Sched {
  import opened Common

  const TIME_SLICE_HISTORY_SIZE := 200
  const MIN_START := 0x7f7f_7f7f

  /** An integer cut down to 32 bits. */
  function Wrap32(x: int): int { (x + 0x8000_0000) % 0x1_0000_0000 - 0x8000_0000 }

  /** Division toward zero; by zero the processor answers -1. */
  function Div32(a: int, b: int): int {
    if b == 0 then -1
    else if (a < 0) == (b < 0) then Wrap32(Abs(a) / Abs(b))
    else Wrap32(-(Abs(a) / Abs(b)))
  }

  function Abs(x: int): nat { if x < 0 then -x else x }

  /** Consumption weighted by workload and nice, as 32-bit arithmetic has it. */
  function WeightOf(sliceCnt: int, workload: int, nice: int): int {
    Div32(Wrap32(Div32(sliceCnt, Wrap32(workload + 1)) * Wrap32(10 + nice)), 10)
  }

  datatype Proc = Proc(taskId: int, workload: int, nice: int, affinity: set<Hart>, sliceCnt: int) {
    function Weight(): int { WeightOf(sliceCnt, workload, nice) }

    /** The first pass can pick the process at all: it lies below the starting minima. */
    predicate Visible() { taskId < MIN_START || (taskId == MIN_START && Weight() < MIN_START) }

    /** With no picks it weighs nothing, and with any it weighs no less. */
    ghost predicate Fair() {
      && taskId < MIN_START && WeightOf(0, workload, nice) == 0
      && forall n :: 0 <= n <= TIME_SLICE_HISTORY_SIZE ==> WeightOf(n, workload, nice) >= 0
    }
  }

  /** For a workload that is not negative and a nice value up to ten million nothing wraps: such processes are fair,
      and weigh what the formula says. */
  lemma ModestIsFair(p: Proc)
    requires p.taskId < MIN_START && 0 <= p.workload < 0x7fff_ffff && 0 <= p.nice <= 10_000_000
    ensures p.Fair()
    ensures 0 <= p.sliceCnt <= TIME_SLICE_HISTORY_SIZE ==>
      p.Weight() == p.sliceCnt / (p.workload + 1) * (10 + p.nice) / 10
  {
    forall n | 0 <= n <= TIME_SLICE_HISTORY_SIZE
      ensures WeightOf(n, p.workload, p.nice) == n / (p.workload + 1) * (10 + p.nice) / 10 >= 0
    {
      ModestWeight(n, p.workload, p.nice);
    }
    ModestWeight(0, p.workload, p.nice);
  }

  lemma ModestWeight(n: nat, workload: nat, nice: nat)
    requires n <= TIME_SLICE_HISTORY_SIZE && workload < 0x7fff_ffff && nice <= 10_000_000
    ensures WeightOf(n, workload, nice) == n / (workload + 1) * (10 + nice) / 10 >= 0
    ensures n == 0 ==> WeightOf(n, workload, nice) == 0
  {
    DivExact(n, workload + 1);
    var q: nat := n / (workload + 1);
    ProductBound(q, 10 + nice);
    var m: nat := q * (10 + nice);
    DivExact(m, 10);
    assert Wrap32(workload + 1) == workload + 1 && Wrap32(m) == m && Wrap32(10 + nice) == 10 + nice;
  }

  lemma DivExact(a: nat, b: nat)
    requires a < 0x8000_0000 && b >= 1
    ensures Div32(a, b) == a / b <= a
    ensures a == 0 ==> a / b == 0
  {
    QuotientBound(a, b);
  }

  /** With a negative divisor the weight is the negative of what the formula says of its amount. */
  lemma NegativeWeight(n: nat, workload: int, e: int, nice: nat)
    requires n <= TIME_SLICE_HISTORY_SIZE && Wrap32(workload + 1) == -e && 1 <= e <= 0x8000_0000 && nice <= 10_000_000
    ensures WeightOf(n, workload, nice) == -(n / e * (10 + nice) / 10)
  {
    DivByNegative(n, e);
    var q: int := n / e;
    ProductBound(q, 10 + nice);
    NegativeProduct(q, 10 + nice);
    DivOfNegative(q * (10 + nice));
    assert Wrap32(10 + nice) == 10 + nice;
  }

  lemma DivByNegative(n: nat, e: int)
    requires n <= TIME_SLICE_HISTORY_SIZE && e >= 1
    ensures Div32(n, -e) == -(n / e) && 0 <= n / e <= n
  {
    QuotientBound(n, e);
  }

  lemma NegativeProduct(q: int, k: int)
    requires 0 <= q * k < 0x8000_0000
    ensures Wrap32(-q * k) == -(q * k)
  {
    assert -q * k == -(q * k);
  }

  lemma DivOfNegative(m: nat)
    requires m < 0x8000_0000
    ensures Div32(-(m as int), 10) == -(m / 10)
  {
  }

  /** Which processes are fair: those whose workload is not negative, or so negative that no number of picks matters. */
  lemma FairIff(p: Proc)
    requires p.taskId < MIN_START && -0x8000_0000 <= p.workload < 0x8000_0000 && 0 <= p.nice <= 10_000_000
    ensures p.Fair() <==> p.workload >= 0 || p.workload <= -202
  {
    if 0 <= p.workload < 0x7fff_ffff {
      ModestIsFair(p);
    } else if p.workload == 0x7fff_ffff {
      LightIsFair(p, 0x8000_0000);
    } else if p.workload <= -202 {
      LightIsFair(p, -p.workload - 1);
    } else {
      UnfairWeight(p.workload, p.nice);
    }
  }

  /** Divided by more than 200, picks count for nothing. */
  lemma LightIsFair(p: Proc, e: int)
    requires p.taskId < MIN_START && Wrap32(p.workload + 1) == -e && 201 <= e <= 0x8000_0000 && 0 <= p.nice <= 10_000_000
    ensures p.Fair()
  {
    forall n | 0 <= n <= TIME_SLICE_HISTORY_SIZE ensures WeightOf(n, p.workload, p.nice) == 0 {
      SmallQuotient(n, e);
      NegativeWeight(n, p.workload, e, p.nice);
    }
  }

  lemma SmallQuotient(n: nat, e: nat)
    requires n < e
    ensures n / e == 0
  {
  }

  /** For every other workload all the picks of the window weigh less than none. */
  lemma UnfairWeight(workload: int, nice: nat)
    requires -201 <= workload <= -1 && nice <= 10_000_000
    ensures WeightOf(TIME_SLICE_HISTORY_SIZE, workload, nice) < 0
  {
    if workload == -1 { DividedByZero(nice); } else { DividedByNegative(workload, nice); }
  }

  lemma DividedByZero(nice: nat)
    requires nice <= 10_000_000
    ensures WeightOf(TIME_SLICE_HISTORY_SIZE, -1, nice) < 0
  {
    var k: int := 10 + nice;
    NegativeProduct(1, k);
    DivOfNegative(k);
    assert Wrap32(-1 + 1) == 0 && Wrap32(k) == k;
  }

  lemma DividedByNegative(workload: int, nice: nat)
    requires -201 <= workload <= -2 && nice <= 10_000_000
    ensures WeightOf(TIME_SLICE_HISTORY_SIZE, workload, nice) < 0
  {
    var e: int := -workload - 1;
    assert Wrap32(workload + 1) == -e;
    NegativeWeight(TIME_SLICE_HISTORY_SIZE, workload, e, nice);
    OnceAtLeast(e);
    MulMonotone(1, TIME_SLICE_HISTORY_SIZE / e, 10 + nice);
  }

  lemma OnceAtLeast(e: nat)
    requires 1 <= e <= TIME_SLICE_HISTORY_SIZE
    ensures TIME_SLICE_HISTORY_SIZE / e >= 1
  {
    var q := TIME_SLICE_HISTORY_SIZE / e;
    assert TIME_SLICE_HISTORY_SIZE == e * q + TIME_SLICE_HISTORY_SIZE % e;
  }

  lemma {:induction false} MulMonotone(q: nat, m: nat, n: nat)
    requires q <= m
    ensures q * n <= m * n
    decreases m - q
  {
    if q < m {
      MulMonotone(q + 1, m, n);
      assert (q + 1) * n == q * n + n;
    }
  }

  lemma QuotientBound(a: nat, b: nat)
    requires b >= 1
    ensures 0 <= a / b <= a
    ensures a == 0 ==> a / b == 0
  {
    var q: nat := a / b;
    MulMonotone(1, b, q);
    assert a == b * q + a % b;
  }

  lemma ProductBound(q: nat, n: nat)
    requires q <= TIME_SLICE_HISTORY_SIZE && n <= 10_000_010
    ensures 0 <= q * n <= TIME_SLICE_HISTORY_SIZE * 10_000_010
  {
    MulMonotone(q, TIME_SLICE_HISTORY_SIZE, n);
    MulMonotone(0, q, n);
  }

  // ---- the choice ----

  ghost predicate ProcsOk(procs: map<Pid, Proc>, ready: seq<Pid>) {
    forall i :: 0 <= i < |ready| ==> ready[i] in procs
  }

  predicate Runs(procs: map<Pid, Proc>, p: Pid, h: Hart) { p in procs && h in procs[p].affinity }

  /** A user process that may run on h and that the first pass can pick. */
  predicate Eligible(procs: map<Pid, Proc>, p: Pid, h: Hart) { p >= NR_CPUS && Runs(procs, p, h) && procs[p].Visible() }

  /** p is preferred to q: smaller task id, or equal and less consumption. */
  predicate Before(p: Proc, q: Proc) { p.taskId < q.taskId || (p.taskId == q.taskId && p.Weight() < q.Weight()) }

  ghost predicate Beats(procs: map<Pid, Proc>, ready: seq<Pid>, k: nat, j: int)
    requires ProcsOk(procs, ready) && k < |ready| && 0 <= j < |ready|
  {
    !Before(procs[ready[j]], procs[ready[k]]) && (j < k ==> Before(procs[ready[k]], procs[ready[j]]))
  }

  /** Position k holds the process to run on hart h among the first n: least in task id and consumption,
      and the earliest of those. */
  ghost predicate BestOf(procs: map<Pid, Proc>, ready: seq<Pid>, h: Hart, n: nat, k: nat)
    requires ProcsOk(procs, ready) && n <= |ready|
  {
    && k < n && Eligible(procs, ready[k], h)
    && forall j :: 0 <= j < n && Eligible(procs, ready[j], h) ==> Beats(procs, ready, k, j)
  }

  ghost predicate NoneEligible(procs: map<Pid, Proc>, ready: seq<Pid>, h: Hart, n: nat)
    requires n <= |ready|
  {
    forall j :: 0 <= j < n ==> !Eligible(procs, ready[j], h)
  }

  /** What picking for hart h must choose: the best eligible process, or else the first one that may run
      there at all. */
  ghost predicate Chosen(procs: map<Pid, Proc>, ready: seq<Pid>, h: Hart, k: nat)
    requires ProcsOk(procs, ready)
  {
    && k < |ready|
    && if NoneEligible(procs, ready, h, |ready|)
       then Runs(procs, ready[k], h) && forall j :: 0 <= j < k ==> !Runs(procs, ready[j], h)
       else BestOf(procs, ready, h, |ready|, k)
  }

  // ---- slice counts ----

  /** The last picks that still count. */
  function Window(log: seq<Pid>): seq<Pid> {
    if |log| <= TIME_SLICE_HISTORY_SIZE then log else log[|log| - TIME_SLICE_HISTORY_SIZE..]
  }

  function Count(s: seq<Pid>, p: Pid): nat {
    if s == [] then 0 else (if s[0] == p then 1 else 0) + Count(s[1..], p)
  }

  lemma {:induction false} CountAppend(s: seq<Pid>, q: Pid, p: Pid)
    ensures Count(s + [q], p) == Count(s, p) + if q == p then 1 else 0
  {
    if s != [] {
      assert (s + [q])[1..] == s[1..] + [q];
      CountAppend(s[1..], q, p);
    }
  }

  lemma {:induction false} CountBound(s: seq<Pid>, p: Pid)
    ensures Count(s, p) <= |s|
    ensures Count(s, p) == 0 <==> p !in s
  {
    if s != [] {
      CountBound(s[1..], p);
      assert s == [s[0]] + s[1..];
    }
  }

  /** One more pick: it enters the window, and the pick that leaves is the one 200 places back. */
  lemma WindowStep(log: seq<Pid>, q: Pid, p: Pid)
    ensures Count(Window(log + [q]), p) == Count(Window(log), p) + (if q == p then 1 else 0)
              - (if |log| >= TIME_SLICE_HISTORY_SIZE && log[|log| - TIME_SLICE_HISTORY_SIZE] == p then 1 else 0)
  {
    var w := Window(log);
    if |log| < TIME_SLICE_HISTORY_SIZE {
      CountAppend(log, q, p);
    } else {
      assert w == [log[|log| - TIME_SLICE_HISTORY_SIZE]] + w[1..];
      assert Window(log + [q]) == w[1..] + [q];
      CountAppend(w[1..], q, p);
    }
  }

  /** Every process's slice count is the number of its picks among the last 200. */
  ghost predicate CountsOk(procs: map<Pid, Proc>, log: seq<Pid>) {
    forall p :: p in procs ==> procs[p].sliceCnt == Count(Window(log), p)
  }

  function Bump(procs: map<Pid, Proc>, p: Pid, delta: int): map<Pid, Proc> {
    if p in procs then procs[p := procs[p].(sliceCnt := procs[p].sliceCnt + delta)] else procs
  }

  /** The counts after process q is picked. */
  function AfterPick(procs: map<Pid, Proc>, log: seq<Pid>, q: Pid): map<Pid, Proc> {
    var procs1 :=
      if |log| >= TIME_SLICE_HISTORY_SIZE then Bump(procs, log[|log| - TIME_SLICE_HISTORY_SIZE], -1) else procs;
    Bump(procs1, q, 1)
  }

  lemma AfterPickCounts(procs: map<Pid, Proc>, log: seq<Pid>, q: Pid)
    requires CountsOk(procs, log)
    ensures CountsOk(AfterPick(procs, log, q), log + [q])
    ensures AfterPick(procs, log, q).Keys == procs.Keys
  {
    forall p | p in procs ensures AfterPick(procs, log, q)[p].sliceCnt == Count(Window(log + [q]), p) {
      WindowStep(log, q, p);
    }
  }

  /** The ring of recent picks, seen as the tail of the log of all picks. */
  ghost predicate RingOk(history: seq<Option<Pid>>, index: nat, log: seq<Pid>) {
    && |history| == TIME_SLICE_HISTORY_SIZE && index == |log| % TIME_SLICE_HISTORY_SIZE
    && forall i :: 0 <= i < TIME_SLICE_HISTORY_SIZE ==> RingAt(history, log, i)
  }

  /** Ring position i holds the latest pick whose number is i modulo the ring size, if there is one. */
  ghost predicate RingAt(history: seq<Option<Pid>>, log: seq<Pid>, i: nat)
    requires |history| == TIME_SLICE_HISTORY_SIZE && i < TIME_SLICE_HISTORY_SIZE
  {
    var n := |log|;
    var base := n - n % TIME_SLICE_HISTORY_SIZE;
    var last := if i < n % TIME_SLICE_HISTORY_SIZE then base + i else base + i - TIME_SLICE_HISTORY_SIZE;
    history[i] == if 0 <= last < n then Some(log[last]) else None
  }

  lemma {:induction false} RemovedOk(procs: map<Pid, Proc>, ready: seq<Pid>, p: Pid)
    requires ProcsOk(procs, ready)
    ensures ProcsOk(procs, RemoveFrom(ready, p))
  {
    if ready != [] { RemovedOk(procs, ready[1..], p); }
  }

  /** The slot about to be overwritten is the pick 200 places back, and the new pick takes its place. */
  lemma RingNext(history: seq<Option<Pid>>, index: nat, log: seq<Pid>, p: Pid)
    requires RingOk(history, index, log)
    ensures index < |history|
    ensures history[index] ==
      if |log| >= TIME_SLICE_HISTORY_SIZE then Some(log[|log| - TIME_SLICE_HISTORY_SIZE]) else None
    ensures RingOk(history[index := Some(p)], (index + 1) % TIME_SLICE_HISTORY_SIZE, log + [p])
  {
    assert RingAt(history, log, index);
    var history', log' := history[index := Some(p)], log + [p];
    forall i | 0 <= i < TIME_SLICE_HISTORY_SIZE ensures RingAt(history', log', i) {
      assert RingAt(history, log, i);
    }
  }

  // ---- the choice, in plain numbers ----

  predicate AllowedOn(procs: map<Pid, Proc>, p: Pid, h: Hart) { p in procs && h in procs[p].affinity }

  /** A user process that may run on hart h, and whose task id does not shut it out. */
  predicate UserOn(procs: map<Pid, Proc>, p: Pid, h: Hart) {
    p >= 2 && AllowedOn(procs, p, h) && procs[p].taskId <= 0x7f7f_7f7f
  }

  predicate Modest(p: Proc) { 0 <= p.workload <= 0x7fff_ffff && 0 <= p.nice <= 10_000_000 }

  /** The user processes in the queue that count for the hart are modest. */
  ghost predicate ModestQueue(procs: map<Pid, Proc>, ready: seq<Pid>, h: Hart) {
    forall j :: 0 <= j < |ready| && UserOn(procs, ready[j], h) ==> Modest(procs[ready[j]])
  }

  /** The share of the last picks a process has had, as it is meant. */
  function Share(p: Proc): int
    requires Modest(p)
  {
    p.sliceCnt / (p.workload + 1) * (10 + p.nice) / 10
  }

  ghost predicate NoWorse(p: Proc, q: Proc, earlier: bool)
    requires Modest(p) && Modest(q)
  {
    p.taskId < q.taskId || (p.taskId == q.taskId && (Share(p) < Share(q) || (Share(p) == Share(q) && earlier)))
  }

  /** Position k has the user process of the hart with the least task id, among those the one with the least share, and
      among those the earliest in the queue; if there is no user process, the first that may run there at all. */
  ghost predicate LeastServed(procs: map<Pid, Proc>, ready: seq<Pid>, h: Hart, k: nat)
    requires ModestQueue(procs, ready, h)
  {
    && k < |ready|
    && if exists j :: 0 <= j < |ready| && UserOn(procs, ready[j], h)
       then
         && UserOn(procs, ready[k], h)
         && forall j :: 0 <= j < |ready| && j != k && UserOn(procs, ready[j], h) ==>
              NoWorse(procs[ready[k]], procs[ready[j]], k < j)
       else AllowedOn(procs, ready[k], h) && forall j :: 0 <= j < k ==> !AllowedOn(procs, ready[j], h)
  }

  lemma HeaviestWorkload(n: nat, nice: nat)
    requires n <= 200 && nice <= 10_000_000
    ensures WeightOf(n, 0x7fff_ffff, nice) == n / 0x8000_0000 * (10 + nice) / 10
  {
    assert Wrap32(0x8000_0000) == -0x8000_0000;
    NegativeWeight(n, 0x7fff_ffff, 0x8000_0000, nice);
    var q := n / 0x8000_0000;
    assert q == 0;
    ZeroShare(q, 10 + nice);
  }

  lemma ZeroShare(q: int, m: int)
    requires q == 0
    ensures q * m / 10 == 0
  {
  }

  lemma SharesAre(n: nat, workload: nat, nice: nat)
    requires n <= 200 && workload <= 0x7fff_ffff && nice <= 10_000_000
    ensures WeightOf(n, workload, nice) == n / (workload + 1) * (10 + nice) / 10
  {
    if workload < 0x7fff_ffff { ModestWeight(n, workload, nice); } else { HeaviestWorkload(n, nice); }
  }

  /** A share of the window is far below the starting minimum. */
  lemma ShareBound(n: nat, workload: nat, nice: nat)
    requires n <= 200 && nice <= 10_000_000
    ensures n / (workload + 1) * (10 + nice) / 10 < 0x7f7f_7f7f
  {
    QuotientBound(n, workload + 1);
    ProductBound(n / (workload + 1), 10 + nice);
  }

  /** A modest process weighs its share, and the first pass can pick it unless its task id is too large. */
  lemma WeighsItsShare(procs: map<Pid, Proc>, log: seq<Pid>, p: Pid, h: Hart)
    requires CountsOk(procs, log) && p in procs && (UserOn(procs, p, h) ==> Modest(procs[p]))
    ensures UserOn(procs, p, h) ==> procs[p].Weight() == Share(procs[p])
    ensures UserOn(procs, p, h) <==> Eligible(procs, p, h)
  {
    if UserOn(procs, p, h) {
      CountBound(Window(log), p);
      SharesAre(procs[p].sliceCnt, procs[p].workload, procs[p].nice);
      ShareBound(procs[p].sliceCnt, procs[p].workload, procs[p].nice);
    }
  }

  /** The scheduler picks the least served. */
  lemma ChosenIsLeastServed(procs: map<Pid, Proc>, log: seq<Pid>, ready: seq<Pid>, h: Hart, k: nat)
    requires ProcsOk(procs, ready) && CountsOk(procs, log) && ModestQueue(procs, ready, h)
    requires Chosen(procs, ready, h, k)
    ensures LeastServed(procs, ready, h, k)
  {
    forall j | 0 <= j < |ready|
      ensures UserOn(procs, ready[j], h) ==> procs[ready[j]].Weight() == Share(procs[ready[j]])
      ensures UserOn(procs, ready[j], h) <==> Eligible(procs, ready[j], h)
    {
      WeighsItsShare(procs, log, ready[j], h);
    }
    if j :| 0 <= j < |ready| && UserOn(procs, ready[j], h) {
      assert Eligible(procs, ready[j], h);
      assert BestOf(procs, ready, h, |ready|, k);
      forall j | 0 <= j < |ready| && j != k && UserOn(procs, ready[j], h)
        ensures NoWorse(procs[ready[k]], procs[ready[j]], k < j)
      {
        assert Beats(procs, ready, k, j);
      }
    }
  }

  class Scheduler {
    var ready: seq<Pid>
    var procs: map<Pid, Proc>
    var history: seq<Option<Pid>>
    var index: nat
    var minTaskId: int
    var minSliceCnt: int
    ghost var log: seq<Pid>   // every pick so far

    ghost predicate Valid()
      reads this
    {
      RingOk(history, index, log) && CountsOk(procs, log) && ProcsOk(procs, ready)
    }

    constructor ()
      ensures Valid() && ready == [] && procs == map[] && log == []
    {
      ready, procs, log := [], map[], [];
      history, index := seq(TIME_SLICE_HISTORY_SIZE, _ => None), 0;
      minTaskId, minSliceCnt := MIN_START, MIN_START;
    }

    /** Whether a process is preferred to everything seen since the minima were reset. */
    method UpdateByConsumption(p: Proc) returns (better: bool)
      modifies this`minTaskId, this`minSliceCnt
      ensures better <==> p.taskId < old(minTaskId) || (p.taskId == old(minTaskId) && p.Weight() < old(minSliceCnt))
      ensures better ==> minTaskId == p.taskId && minSliceCnt == p.Weight()
      ensures !better ==> minTaskId == old(minTaskId) && minSliceCnt == old(minSliceCnt)
    {
      var normalized := p.Weight();
      better := false;
      if p.taskId < minTaskId {
        minTaskId, minSliceCnt, better := p.taskId, normalized, true;
      } else if p.taskId == minTaskId {
        if normalized < minSliceCnt {
          minSliceCnt, better := normalized, true;
        }
      }
    }

    /** First pass: the best user process for the hart, or |ready|. */
    method PickByConsumption(h: Hart) returns (k: nat)
      requires ProcsOk(procs, ready)
      modifies this`minTaskId, this`minSliceCnt
      ensures k < |ready| ==> BestOf(procs, ready, h, |ready|, k)
      ensures k >= |ready| ==> k == |ready| && NoneEligible(procs, ready, h, |ready|)
    {
      minTaskId, minSliceCnt := MIN_START, MIN_START;
      k := |ready|;
      var i := 0;
      while i < |ready|
        invariant 0 <= i <= |ready| && ProcsOk(procs, ready)
        invariant k == |ready| ==> NoneEligible(procs, ready, h, i) && minTaskId == MIN_START && minSliceCnt == MIN_START
        invariant k != |ready| ==> BestOf(procs, ready, h, i, k)
        invariant k != |ready| ==> minTaskId == procs[ready[k]].taskId && minSliceCnt == procs[ready[k]].Weight()
      {
        if ready[i] >= NR_CPUS && Runs(procs, ready[i], h) {
          var better := UpdateByConsumption(procs[ready[i]]);
          if better {
            k := i;
          }
        }
        i := i + 1;
      }
    }

    /** Second pass: the first process that may run on the hart, or |ready|. */
    method PickFirst(h: Hart) returns (k: nat)
      ensures k <= |ready| && (k < |ready| ==> Runs(procs, ready[k], h))
      ensures forall j :: 0 <= j < k ==> !Runs(procs, ready[j], h)
    {
      k := 0;
      while k < |ready| && !Runs(procs, ready[k], h)
        invariant 0 <= k <= |ready| && forall j :: 0 <= j < k ==> !Runs(procs, ready[j], h)
      {
        k := k + 1;
      }
    }

    /** The two passes: the least served user process, or else the first process that may run on the hart. */
    method Choose(h: Hart) returns (k: nat)
      requires Valid()
      modifies this`minTaskId, this`minSliceCnt
      ensures k <= |ready| && (k == |ready| <==> forall i :: 0 <= i < |ready| ==> !Runs(procs, ready[i], h))
      ensures k < |ready| ==> Chosen(procs, ready, h, k)
      ensures k < |ready| && ModestQueue(procs, ready, h) ==> LeastServed(procs, ready, h, k)
    {
      k := PickByConsumption(h);
      if k == |ready| {
        k := PickFirst(h);
      }
      if k < |ready| && ModestQueue(procs, ready, h) { ChosenIsLeastServed(procs, log, ready, h, k); }
    }

    /** Charges p one time slice; the slice that falls out of the history is given back. */
    method Charge(p: Pid)
      requires Valid()
      modifies this`procs, this`history, this`index, this`log
      ensures Valid() && log == old(log) + [p] && procs == AfterPick(old(procs), old(log), p)
    {
      AfterPickCounts(procs, log, p);
      RingNext(history, index, log, p);
      if history[index].Some? {
        procs := Bump(procs, history[index].value, -1);
      }
      history := history[index := Some(p)];
      procs := Bump(procs, p, 1);
      index := (index + 1) % TIME_SLICE_HISTORY_SIZE;
      log := log + [p];
    }

    /** Picks a process for the hart and charges it one time slice; the slice that falls out of the history
        is given back. The kernel halts exactly if no queued process may run on the hart. */
    method PickProcess(h: Hart) returns (k: nat)
      requires Valid()
      modifies this
      ensures ready == old(ready) && k <= |ready| && Valid()
      ensures k == |ready| <==> forall i :: 0 <= i < |ready| ==> !Runs(old(procs), ready[i], h)
      ensures k == |ready| ==> procs == old(procs) && log == old(log)
      ensures k < |ready| && ModestQueue(old(procs), ready, h) ==> LeastServed(old(procs), ready, h, k)
      ensures k < |ready| ==>
        && Chosen(old(procs), ready, h, k)
        && log == old(log) + [ready[k]] && procs == AfterPick(old(procs), old(log), ready[k])
    {
      k := Choose(h);
      if k < |ready| {
        Charge(ready[k]);
      }
    }

    /** The running process, if it can go on, joins the end of the queue; the chosen one leaves it. Nothing is
        chosen exactly if no process in the queue may run on the hart. */
    method DoScheduler(h: Hart, current: Option<Pid>) returns (next: Option<Pid>)
      requires Valid() && (current.Some? ==> current.value in procs)
      modifies this
      ensures Valid()
      ensures var q := if current.Some? then old(ready) + [current.value] else old(ready);
        next.Some? && ModestQueue(old(procs), q, h) ==>
          exists k: nat :: LeastServed(old(procs), q, h, k) && next == Some(q[k]) && ready == Without(q, k)
      ensures var q := if current.Some? then old(ready) + [current.value] else old(ready);
        && (next.None? <==> forall i :: 0 <= i < |q| ==> !Runs(old(procs), q[i], h))
        && (next.Some? ==> exists k: nat ::
              ProcsOk(old(procs), q) && Chosen(old(procs), q, h, k) && next.value == q[k] && ready == Without(q, k)
              && log == old(log) + [q[k]] && procs == AfterPick(old(procs), old(log), q[k]))
    {
      if current.Some? {
        ready := ready + [current.value];
      }
      var k := PickProcess(h);
      if k == |ready| {
        return None;
      }
      next := Some(ready[k]);
      ready := Without(ready, k);
    }

    /** A process becomes ready. */
    method Enqueue(p: Pid)
      requires Valid() && p in procs
      modifies this`ready
      ensures Valid() && ready == old(ready) + [p]
    {
      ready := ready + [p];
    }

    /** A process is taken out of the queue. */
    method Remove(p: Pid)
      requires Valid()
      modifies this`ready
      ensures Valid() && ready == RemoveFrom(old(ready), p)
    {
      RemovedOk(procs, ready, p);
      ready := RemoveFrom(ready, p);
    }

    /** A process's task id, workload or nice value changes. */
    method Tune(p: Pid, taskId: int, workload: int, nice: int)
      requires Valid() && p in procs
      modifies this`procs
      ensures Valid() && procs == old(procs)[p := old(procs)[p].(taskId := taskId, workload := workload, nice := nice)]
    {
      procs := procs[p := procs[p].(taskId := taskId, workload := workload, nice := nice)];
    }
  }
}
