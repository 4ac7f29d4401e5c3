/** Mutexes, conditions, semaphores and barriers in the kernel, over all interleavings of any processes on any harts. */
module Sync {
  import opened Common
  import opened Placement
  import opened SyncModel

  /** The table r is t with some lists emptied and their members ready, in the order given. */
  ghost predicate Emptied(t: Table, r: Table, qs: set<Queue>, woken: seq<Pid>) {
    && Placed(r, None) && r.running == t.running && r.pcbs.Keys == t.pcbs.Keys
    && (forall q :: q != Ready ==> Q(r, q) == if q in qs then [] else Q(t, q))
    && Q(r, Ready) == Q(t, Ready) + woken
    && (forall p :: RecordKept(t, r, woken, p))
  }

  ghost predicate RecordKept(t: Table, r: Table, woken: seq<Pid>, p: Pid) {
    && (p in woken ==> p in r.pcbs && r.pcbs[p].status == READY)
    && (p in t.pcbs && p in r.pcbs ==>
          r.pcbs[p].wakeup == t.pcbs[p].wakeup && (p !in woken ==> r.pcbs[p].status == t.pcbs[p].status))
  }

  lemma EmptiedMore(t: Table, mid: Table, r: Table, qs: set<Queue>, woken: seq<Pid>, more: set<Queue>, others: seq<Pid>)
    requires Emptied(t, mid, qs, woken) && Emptied(mid, r, more, others)
    ensures Emptied(t, r, qs + more, woken + others)
  {
    forall p ensures RecordKept(t, r, woken + others, p) {
      assert RecordKept(t, mid, woken, p) && RecordKept(mid, r, others, p);
    }
  }

  lemma EmptiedNone(t: Table)
    requires Placed(t, None)
    ensures Emptied(t, t, {}, [])
  {
  }

  /** The table r has the locks' lists of t, except that q now holds v. */
  ghost predicate Relisted(t: Table, r: Table, q: Queue, v: seq<Pid>) {
    && Placed(r, None) && r.pcbs.Keys == t.pcbs.Keys
    && forall x :: OfLocks(x) ==> Q(r, x) == if x == q then v else Q(t, x)
  }

  /** The lists of the first k locks of a kind that have p as their only user. */
  function LastLists(kind: Kind, refs: seq<Ref>, p: Pid, k: nat): set<Queue> {
    set i | 0 <= i < k && i < |refs| && refs[i].users == {p} :: ListOf(kind, i)
  }

  /** The first k references after p has left them. */
  function LeftUpTo(refs: seq<Ref>, p: Pid, k: nat): seq<Ref>
    requires k <= |refs|
  {
    Left(refs[..k], p) + refs[k..]
  }

  lemma ChainMore(seen: seq<Locks>, steps: seq<Step>, l: Locks)
    requires Chain(seen, steps) && |seen| <= |steps| && Stepped(seen[|seen| - 1], steps[|seen| - 1], l)
    ensures Chain(seen + [l], steps)
  {
    var more := seen + [l];
    forall k | 0 <= k < |more| - 1 ensures Stepped(more[k], steps[k], more[k + 1]) {
      if k < |seen| - 1 { assert Stepped(seen[k], steps[k], seen[k + 1]); }
    }
  }

  function Zeroed(refs: seq<Ref>, counts: seq<int>, p: Pid): seq<int>
    requires |refs| == |counts|
  {
    seq(|refs|, i requires 0 <= i < |refs| => if refs[i].users == {p} then 0 else counts[i])
  }

  function MutexLists(b: Books, p: Pid): set<Queue>
    requires b.Sized()
  {
    HeldLists(b, p, LOCK_NUM) + LastLists(LockKind, b.mutexRefs, p, LOCK_NUM)
  }

  function OtherLists(b: Books, p: Pid, qs: set<Queue>): set<Queue> {
    qs + LastLists(BarKind, b.barRefs, p, LOCK_NUM) + LastLists(CondKind, b.condRefs, p, LOCK_NUM)
    + LastLists(SemKind, b.semRefs, p, LOCK_NUM)
  }

  function OtherWoken(b: Books, t: Table, p: Pid, woken: seq<Pid>): seq<Pid>
    requires b.Sized()
  {
    woken + LastWoken(b.barRefs, t, BarKind, p, |b.barRefs|, {}) + LastWoken(b.condRefs, t, CondKind, p, |b.condRefs|, {})
    + LastWoken(b.semRefs, t, SemKind, p, |b.semRefs|, {})
  }

  function ExitLists(b: Books, p: Pid): set<Queue>
    requires b.Sized()
  {
    OtherLists(b, p, MutexLists(b, p))
  }

  lemma LastIff(kind: Kind, refs: seq<Ref>, p: Pid, q: Queue)
    requires |refs| == LOCK_NUM && OfLocks(q)
    ensures q in LastLists(kind, refs, p, LOCK_NUM) <==>
      match q
      case LockOf(i) => kind == LockKind && LastUser(refs, i, p)
      case CondOf(i) => kind == CondKind && LastUser(refs, i, p)
      case SemOf(i) => kind == SemKind && LastUser(refs, i, p)
      case BarOf(i) => kind == BarKind && LastUser(refs, i, p)
      case _ => false
  {
    match q
    case LockOf(i) => if LastUser(refs, i, p) { assert ListOf(LockKind, i) == q; }
    case CondOf(i) => if LastUser(refs, i, p) { assert ListOf(CondKind, i) == q; }
    case SemOf(i) => if LastUser(refs, i, p) { assert ListOf(SemKind, i) == q; }
    case BarOf(i) => if LastUser(refs, i, p) { assert ListOf(BarKind, i) == q; }
  }

  lemma ListsAreFlushed(b: Books, p: Pid, q: Queue)
    requires b.Sized() && OfLocks(q)
    ensures q in ExitLists(b, p) <==> Flushes(b, p, q)
  {
    LastIff(LockKind, b.mutexRefs, p, q);
    LastIff(BarKind, b.barRefs, p, q);
    LastIff(CondKind, b.condRefs, p, q);
    LastIff(SemKind, b.semRefs, p, q);
    if q.LockOf? && q.lock < LOCK_NUM && HeldBy(b, p, q.lock) { assert q in HeldLists(b, p, LOCK_NUM); }
  }

  /** The books with those of the first k mutexes freed that p holds. */
  function HeldFreed(b: Books, p: Pid, k: nat): Books
    requires b.Sized() && k <= LOCK_NUM
  {
    b.(mutexes := seq(LOCK_NUM, i requires 0 <= i < LOCK_NUM =>
         if i < k && HeldBy(b, p, i) then b.mutexes[i].(acquired := false) else b.mutexes[i]),
       holders := seq(LOCK_NUM, i requires 0 <= i < LOCK_NUM =>
         if i < k && HeldBy(b, p, i) then b.holders[i] - {p} else b.holders[i]))
  }

  lemma HeldMore(b: Books, p: Pid, k: nat)
    requires b.Sized() && k < LOCK_NUM
    ensures HeldFreed(b, p, k + 1) == if HeldBy(b, p, k) then Released(HeldFreed(b, p, k), k, p) else HeldFreed(b, p, k)
    ensures HeldLists(b, p, k + 1) == HeldLists(b, p, k) + if HeldBy(b, p, k) then {LockOf(k)} else {}
    ensures HeldFreed(b, p, k).mutexes[k] == b.mutexes[k] && HeldFreed(b, p, k).mutexRefs == b.mutexRefs
  {
    var a, c := HeldFreed(b, p, k), HeldFreed(b, p, k + 1);
    if HeldBy(b, p, k) {
      assert c.mutexes == a.mutexes[k := a.mutexes[k].(acquired := false)];
      assert c.holders == a.holders[k := a.holders[k] - {p}];
    } else {
      assert c.mutexes == a.mutexes && c.holders == a.holders;
    }
  }

  /** The mutexes with those destroyed that have p as their only user. */
  function Opened(refs: seq<Ref>, mutexes: seq<Mutex>, p: Pid): seq<Mutex>
    requires |refs| == |mutexes|
  {
    seq(|refs|, i requires 0 <= i < |refs| =>
      if refs[i].users == {p} then mutexes[i].(acquired := false) else mutexes[i])
  }

  function HoldsEnded(refs: seq<Ref>, holders: seq<set<Pid>>, p: Pid): seq<set<Pid>>
    requires |refs| == |holders|
  {
    seq(|refs|, i requires 0 <= i < |refs| => if refs[i].users == {p} then holders[i] - {p} else holders[i])
  }

  /** Freeing what p holds and destroying what only p uses is what its exit does. */
  lemma HeldThenLast(b: Books, p: Pid)
    requires b.Sized()
    ensures var freed := HeldFreed(b, p, LOCK_NUM);
      && Opened(b.mutexRefs, freed.mutexes, p) == Exited(b, p).mutexes
      && HoldsEnded(b.mutexRefs, freed.holders, p) == Exited(b, p).holders
  {
    assert forall x: set<Pid> :: x - {p} - {p} == x - {p};
    var got, want := HoldsEnded(b.mutexRefs, HeldFreed(b, p, LOCK_NUM).holders, p), Exited(b, p).holders;
    forall i | 0 <= i < LOCK_NUM ensures got[i] == want[i] {}
  }

  /** The books after the mutexes have been dealt with at the exit of p. */
  ghost function MutexesLeft(b: Books, p: Pid): Books
    requires b.Sized()
  {
    var x := Exited(b, p);
    b.(mutexRefs := x.mutexRefs, mutexes := x.mutexes, holders := x.holders, stolen := b.stolen + Steals(b, p, Quit))
  }

  lemma ExitBooks(b: Books, p: Pid)
    requires b.Sized()
    ensures BooksAfter(b, p, Quit) == MutexesLeft(b, p).(
      barRefs := Left(b.barRefs, p), condRefs := Left(b.condRefs, p), semRefs := Left(b.semRefs, p),
      counts := Zeroed(b.semRefs, b.counts, p))
  {
    assert Zeroed(b.semRefs, b.counts, p) == Exited(b, p).counts;
    var b1 := b.(stolen := b.stolen + Steals(b, p, Quit));
    assert Exited(b1, p).mutexes == Exited(b, p).mutexes && Exited(b1, p).holders == Exited(b, p).holders;
    assert Exited(b1, p).counts == Exited(b, p).counts;
  }

  lemma LeftEnds(refs: seq<Ref>, p: Pid)
    ensures LeftUpTo(refs, p, 0) == refs && LeftUpTo(refs, p, |refs|) == Left(refs, p)
  {
    assert refs[..0] == [] && refs[..|refs|] == refs;
  }

  lemma LeftMore(refs: seq<Ref>, p: Pid, k: nat)
    requires k < |refs|
    ensures LeftUpTo(refs, p, k + 1) == LeftUpTo(refs, p, k)[k := refs[k].(users := refs[k].users - {p})]
  {
  }

  lemma LastMore(kind: Kind, refs: seq<Ref>, p: Pid, k: nat)
    requires k < |refs|
    ensures LastLists(kind, refs, p, k + 1) ==
      LastLists(kind, refs, p, k) + if refs[k].users == {p} then {ListOf(kind, k)} else {}
  {
  }

  /** Lock i is not among the first i. */
  lemma KindsApart(kind: Kind, refs: seq<Ref>, p: Pid)
    ensures forall k, i :: k != kind ==> ListOf(k, i) !in LastLists(kind, refs, p, LOCK_NUM)
  {
  }

  lemma NotYet(kind: Kind, refs: seq<Ref>, p: Pid, i: nat)
    ensures ListOf(kind, i) !in LastLists(kind, refs, p, i)
  {
  }

  lemma Regroup(a: set<Queue>, b: set<Queue>, c: set<Queue>, u: seq<Pid>, v: seq<Pid>, w: seq<Pid>)
    ensures a + b + c == a + (b + c) && u + v + w == u + (v + w)
  {
  }

  /** The next lock has p as its only user: its list is emptied too. */
  lemma DroppedLast(kind: Kind, refs: seq<Ref>, p: Pid, i: nat, t: Table, mid: Table, r: Table, qs: set<Queue>,
                    woken: seq<Pid>)
    requires i < |refs| && refs[i].users == {p}
    requires Emptied(t, mid, qs + LastLists(kind, refs, p, i), woken + LastWoken(refs, t, kind, p, i, qs))
    requires Emptied(mid, r, {ListOf(kind, i)}, Q(mid, ListOf(kind, i)))
    ensures Emptied(t, r, qs + LastLists(kind, refs, p, i + 1), woken + LastWoken(refs, t, kind, p, i + 1, qs))
  {
    var q, w, last := ListOf(kind, i), LastWoken(refs, t, kind, p, i, qs), LastLists(kind, refs, p, i);
    NotYet(kind, refs, p, i);
    var others := if q in qs then [] else Q(t, q);
    assert Q(mid, q) == others;
    EmptiedMore(t, mid, r, qs + last, woken + w, {q}, others);
    LastMore(kind, refs, p, i);
    Regroup(qs, last, {q}, woken, w, others);
  }

  /** After lists qs of t, those of the first i locks that have p as their only user were emptied. */
  ghost predicate DroppedUpTo(t: Table, r: Table, kind: Kind, refs: seq<Ref>, p: Pid, i: nat, qs: set<Queue>,
                              woken: seq<Pid>)
    requires i <= |refs|
  {
    Emptied(t, r, qs + LastLists(kind, refs, p, i), woken + LastWoken(refs, t, kind, p, i, qs))
  }

  lemma DroppedNone(t: Table, r: Table, kind: Kind, refs: seq<Ref>, p: Pid, qs: set<Queue>, woken: seq<Pid>)
    requires Emptied(t, r, qs, woken)
    ensures DroppedUpTo(t, r, kind, refs, p, 0, qs, woken)
  {
    assert qs == qs + LastLists(kind, refs, p, 0) && woken == woken + LastWoken(refs, t, kind, p, 0, qs);
  }

  lemma DroppedMore(kind: Kind, refs: seq<Ref>, p: Pid, i: nat, t: Table, mid: Table, r: Table, qs: set<Queue>,
                    woken: seq<Pid>)
    requires i < |refs|
    requires Emptied(t, mid, qs + LastLists(kind, refs, p, i), woken + LastWoken(refs, t, kind, p, i, qs))
    requires if refs[i].users == {p} then Emptied(mid, r, {ListOf(kind, i)}, Q(mid, ListOf(kind, i))) else r == mid
    ensures Emptied(t, r, qs + LastLists(kind, refs, p, i + 1), woken + LastWoken(refs, t, kind, p, i + 1, qs))
  {
    if refs[i].users == {p} {
      DroppedLast(kind, refs, p, i, t, mid, r, qs, woken);
    } else {
      LastMore(kind, refs, p, i);
      assert qs + LastLists(kind, refs, p, i) == qs + LastLists(kind, refs, p, i + 1);
      assert LastWoken(refs, t, kind, p, i + 1, qs) == LastWoken(refs, t, kind, p, i, qs);
    }
  }

  lemma ScheduledList(t: Table, h: Hart, now: nat, r: Table, q: Queue)
    requires Scheduled(t, h, now, r) && OfLocks(q)
    ensures r.pcbs.Keys == t.pcbs.Keys && Q(r, q) == Q(t, q)
  {
  }

  lemma ActedList(t: Table, e: Event, r: Table, q: Queue)
    requires e.hart < |t.running| == NR_CPUS && t.running[e.hart] in t.pcbs && Acted(t, e, r) && OfLocks(q)
    requires e.act.Exec? || e.act.Yield? || e.act.DoSleepFor? || e.act.WaitFor?
    ensures t.pcbs.Keys <= r.pcbs.Keys && Q(r, q) == Q(t, q)
  {
    var p := t.running[e.hart];
    if e.act.Yield? {
      ScheduledList(t, e.hart, e.now, r, q);
    } else if e.act.DoSleepFor? && p >= NR_CPUS {
      ScheduledList(Join(SetTimer(t, p, e.now + e.act.time), Sleep, p, BLOCKED), e.hart, e.now, r, q);
    } else if e.act.WaitFor? && p >= NR_CPUS && e.act.target in t.pcbs {
      ScheduledList(Join(t, ExitOf(e.act.target), p, BLOCKED), e.hart, e.now, r, q);
    }
  }

  lemma ParkedIs(t: Table, h: Hart, q: Queue, now: nat, r: Table)
    requires Placed(t, None) && Placed(r, None) && h < NR_CPUS && OfLocks(q) && t.running[h] in t.pcbs
    requires Scheduled(Join(t, q, t.running[h], BLOCKED), h, now, r)
    ensures Relisted(t, r, q, Q(t, q) + [t.running[h]])
    ensures Departed(t, h, now, r, []) && Elsewhere(t, r, [], None)
  {
    PartedByJoin(t, h, q);
    DepartedIs(t, h, now, Join(t, q, t.running[h], BLOCKED), r, []);
    ParkedLists(t, h, q, now, r);
  }

  lemma ParkedLists(t: Table, h: Hart, q: Queue, now: nat, r: Table)
    requires h < |t.running| && OfLocks(q) && t.running[h] in t.pcbs
    requires Scheduled(Join(t, q, t.running[h], BLOCKED), h, now, r)
    ensures r.pcbs.Keys == t.pcbs.Keys && Elsewhere(t, r, [], None)
    ensures forall x :: OfLocks(x) ==> Q(r, x) == if x == q then Q(t, q) + [t.running[h]] else Q(t, x)
  {
  }

  lemma PartedByJoin(t: Table, h: Hart, q: Queue)
    requires Placed(t, None) && h < NR_CPUS && OfLocks(q) && t.running[h] in t.pcbs
    ensures Parted(t, h, Join(t, q, t.running[h], BLOCKED), [])
  {
    RunningUnqueued(t, h, Sleep);
    assert QueueOk(t, Sleep);
    assert forall x :: x in Q(t, Sleep) ==> LinkedOn(t, Sleep, x);
  }

  lemma PartedByWait(t: Table, h: Hart, c: nat, i: nat, mid: Table)
    requires Placed(t, None) && h < NR_CPUS && t.running[h] in t.pcbs
    requires Woken(Join(t, CondOf(c), t.running[h], BLOCKED), mid, LockOf(i), Q(t, LockOf(i)))
    ensures Parted(t, h, mid, Q(t, LockOf(i)))
  {
    RunningUnqueued(t, h, LockOf(i));
    RunningUnqueued(t, h, Sleep);
    assert QueueOk(t, LockOf(i)) && QueueOk(t, Sleep);
    assert forall x :: x in Q(t, LockOf(i)) ==> LinkedOn(t, LockOf(i), x);
    assert forall x :: x in Q(t, Sleep) ==> LinkedOn(t, Sleep, x);
  }

  lemma WokenEmptied(t: Table, r: Table, q: Queue)
    requires Placed(t, None) && Placed(r, None) && q != Ready && Woken(t, r, q, Q(t, q)) && Q(r, q) == []
    ensures Emptied(t, r, {q}, Q(t, q))
  {
    assert QueueOk(t, q);
    forall p ensures RecordKept(t, r, Q(t, q), p) { assert p in Q(t, q) ==> LinkedOn(t, q, p); }
  }

  lemma {:induction false} LastWokenSame(refs: seq<Ref>, t: Table, kind: Kind, p: Pid, k: nat, before: set<Queue>)
    requires k <= |refs| && forall i :: ListOf(kind, i) !in before
    ensures LastWoken(refs, t, kind, p, k, before) == LastWoken(refs, t, kind, p, k, {})
  {
    if k > 0 { LastWokenSame(refs, t, kind, p, k - 1, before); }
  }

  /** A process that has left its locks ends: those it woke and those that waited for it are ready, and another
      process runs. */
  lemma ExitDeparted(t: Table, h: Hart, now: nat, mid: Table, r: Table, qs: set<Queue>, woken: seq<Pid>)
    requires Placed(t, None) && h < NR_CPUS && Emptied(t, mid, qs, woken) && Ended(mid, h, now, r)
    requires forall q :: q in qs ==> OfLocks(q)
    ensures Departed(t, h, now, r, woken + Q(t, ExitOf(t.running[h])))
    ensures Elsewhere(t, r, [], Some(t.running[h]))
  {
    var waiters := Q(t, ExitOf(t.running[h]));
    ExitDue(t, h, now, mid, r, qs, woken);
    assert Q(mid, Ready) + waiters == Q(t, Ready) + (woken + waiters);
    forall x | x in woken + waiters ensures x in r.pcbs && (x == r.running[h] || r.pcbs[x].status == READY) {
      ExitedReady(t, h, now, mid, r, qs, woken, x);
    }
    forall x | x !in woken + waiters ensures StatusKept(t, r, h, x) {
      assert RecordKept(t, mid, woken, x) && StatusKept(mid, r, h, x);
    }
    ExitElsewhere(t, h, now, mid, r, qs, woken);
  }

  lemma ExitDue(t: Table, h: Hart, now: nat, mid: Table, r: Table, qs: set<Queue>, woken: seq<Pid>)
    requires Placed(t, None) && h < NR_CPUS && Emptied(t, mid, qs, woken) && Ended(mid, h, now, r)
    requires forall q :: q in qs ==> OfLocks(q)
    ensures Due(mid.pcbs, Q(mid, Sleep), now, true) == Due(t.pcbs, Q(t, Sleep), now, true)
    ensures Q(r, Sleep) == Due(t.pcbs, Q(t, Sleep), now, false)
  {
    assert QueueOk(t, Sleep) && Q(mid, Sleep) == Q(t, Sleep);
    forall x | x in Q(t, Sleep) ensures x in t.pcbs && x in mid.pcbs && mid.pcbs[x].wakeup == t.pcbs[x].wakeup {
      assert LinkedOn(t, Sleep, x) && RecordKept(t, mid, woken, x);
    }
    DueSame(t.pcbs, mid.pcbs, Q(t, Sleep), now, true);
    DueSame(t.pcbs, mid.pcbs, Q(t, Sleep), now, false);
  }

  lemma ExitElsewhere(t: Table, h: Hart, now: nat, mid: Table, r: Table, qs: set<Queue>, woken: seq<Pid>)
    requires h < |t.running| && Emptied(t, mid, qs, woken) && Ended(mid, h, now, r)
    requires forall q :: q in qs ==> OfLocks(q)
    ensures Elsewhere(t, r, [], Some(t.running[h]))
  {
  }

  lemma ExitMade(l: Locks, h: Hart, now: nat, mid: Table, l': Locks)
    requires l.b.Sized() && Placed(l.t, None) && h < NR_CPUS && Placed(l'.t, None)
    requires l'.b == BooksAfter(l.b, l.t.running[h], Quit) && Ended(mid, h, now, l'.t)
    requires Emptied(l.t, mid, ExitLists(l.b, l.t.running[h]), ExitWoken(l, l.t.running[h]))
    ensures Made(l, h, Quit, now, l')
  {
    var p := l.t.running[h];
    FlushedLists(l.b, p);
    ExitCalled(l, h, now, mid, l', ExitLists(l.b, p), ExitWoken(l, p));
    ExitDeparted(l.t, h, now, mid, l'.t, ExitLists(l.b, p), ExitWoken(l, p));
    QuitMoved(l, h, now, l');
  }

  lemma FlushedLists(b: Books, p: Pid)
    requires b.Sized()
    ensures forall q :: OfLocks(q) ==> (q in ExitLists(b, p) <==> Flushes(b, p, q))
    ensures forall q :: q in ExitLists(b, p) ==> OfLocks(q)
  {
    forall q | OfLocks(q) ensures q in ExitLists(b, p) <==> Flushes(b, p, q) { ListsAreFlushed(b, p, q); }
  }

  lemma QuitMoved(l: Locks, h: Hart, now: nat, l': Locks)
    requires l.b.Sized() && h < |l.t.running| && Elsewhere(l.t, l'.t, [], Some(l.t.running[h]))
    requires Departed(l.t, h, now, l'.t, ExitWoken(l, l.t.running[h]) + Q(l.t, ExitOf(l.t.running[h])))
    ensures Moved(l, h, Quit, now, l')
  {
  }

  lemma ExitCalled(l: Locks, h: Hart, now: nat, mid: Table, l': Locks, qs: set<Queue>, woken: seq<Pid>)
    requires l.b.Sized() && h < |l.t.running| && Placed(l'.t, None)
    requires l'.b == BooksAfter(l.b, l.t.running[h], Quit) && Ended(mid, h, now, l'.t) && Emptied(l.t, mid, qs, woken)
    requires forall q :: OfLocks(q) ==> (q in qs <==> Flushes(l.b, l.t.running[h], q))
    ensures Called(l, l.t.running[h], Quit, l')
  {
    forall q | OfLocks(q) ensures Q(l'.t, q) == QueueAfter(l, l.t.running[h], Quit, q) {
      assert Q(l'.t, q) == Q(mid, q) == if q in qs then [] else Q(l.t, q);
    }
  }

  lemma ExitedReady(t: Table, h: Hart, now: nat, mid: Table, r: Table, qs: set<Queue>, woken: seq<Pid>, x: Pid)
    requires Placed(t, None) && h < NR_CPUS && Emptied(t, mid, qs, woken) && Ended(mid, h, now, r)
    requires forall q :: q in qs ==> OfLocks(q)
    requires x in woken + Q(t, ExitOf(t.running[h]))
    ensures x in r.pcbs && (x == r.running[h] || r.pcbs[x].status == READY)
  {
    if x !in Q(t, ExitOf(t.running[h])) {
      assert RecordKept(t, mid, woken, x) && StatusKept(mid, r, h, x);
      RunningUnqueued(mid, h, Ready);
      assert x in Q(mid, Ready);
    }
  }

  /** At boot no key is known, so the first lock of each kind is the one to be set up. */
  lemma FirstSlot(refs: seq<Ref>, key: int)
    requires |refs| == LOCK_NUM && forall i :: 0 <= i < LOCK_NUM ==> refs[i].users == {}
    ensures !Known(refs, key) && SlotFor(refs, key) == 0
  {
    assert !refs[0].Used();
  }

  /** Once the first barrier is in use, another key than 0 leads to the second. */
  lemma SecondSlot(refs: seq<Ref>, key: int)
    requires |refs| == LOCK_NUM && refs[0].Used() && (forall i :: 1 <= i < LOCK_NUM ==> refs[i].users == {})
    requires key != 0 && forall i :: 0 <= i < LOCK_NUM ==> refs[i].key == 0
    ensures !Known(refs, key) && SlotFor(refs, key) == 1
  {
    assert !refs[1].Used();
  }

  class Machine {
    const procs: Processes
    var mutexRefs: seq<Ref>
    var mutexes: seq<Mutex>
    var condRefs: seq<Ref>
    var semRefs: seq<Ref>
    var counts: seq<int>
    var barRefs: seq<Ref>
    var bars: seq<Bar>
    var pending: map<Pid, nat>    // processes inside mutex_acquire, or due to enter it once woken
    var halted: bool
    ghost var holders: seq<set<Pid>>
    ghost var stolen: set<nat>
    ghost var semLogs: seq<SemLog>
    ghost var barLogs: seq<BarLog>

    ghost function B(): Books
      reads this
    {
      Books(mutexRefs, mutexes, condRefs, semRefs, counts, barRefs, bars, pending, holders, stolen, semLogs, barLogs)
    }

    ghost function Now(): Locks
      reads this, procs
    {
      Locks(B(), procs.t)
    }

    /** All that a single call relies on. */
    ghost predicate Fit()
      reads this, procs
    {
      B().Sized() && Placed(procs.t, None) && !halted
    }

    /** At boot nothing is initialised. */
    constructor ()
      ensures Good(Now()) && Sound(B()) && !halted && fresh(procs) && stolen == {} && procs.t.pcbs.Keys == {0, 1}
      ensures mutexRefs == seq(LOCK_NUM, _ => Ref(0, {})) && mutexes == seq(LOCK_NUM, _ => Mutex(false, false, 0))
      ensures condRefs == semRefs == barRefs == mutexRefs && pending == map[] && holders == seq(LOCK_NUM, _ => {})
    {
      procs := new Processes();
      mutexRefs, condRefs := seq(LOCK_NUM, _ => Ref(0, {})), seq(LOCK_NUM, _ => Ref(0, {}));
      semRefs, barRefs := seq(LOCK_NUM, _ => Ref(0, {})), seq(LOCK_NUM, _ => Ref(0, {}));
      mutexes, counts := seq(LOCK_NUM, _ => Mutex(false, false, 0)), seq(LOCK_NUM, _ => 0);
      bars := seq(LOCK_NUM, _ => Bar(0, 0));
      pending, halted, stolen, holders := map[], false, {}, seq(LOCK_NUM, _ => {});
      semLogs, barLogs := seq(LOCK_NUM, _ => SemLog(0, 0, 0)), seq(LOCK_NUM, _ => BarLog(0, 0));
      new;
      forall i ensures MutexAt(Now(), i) && SemAt(Now(), i) && BarAt(Now(), i) && SoundAt(B(), i) {}
    }

    /** Sets a list up anew, whoever is on it. */
    method SetUpList(q: Queue)
      requires Placed(procs.t, None) && OfLocks(q)
      modifies procs
      ensures Relisted(old(procs.t), procs.t, q, []) && Rested(old(procs.t), procs.t, [])
      ensures Elsewhere(old(procs.t), procs.t, old(Q(procs.t, q)), None)
    {
      procs.Forget(q);
    }

    /** The process on h joins a list and another one runs. */
    method Enqueue(h: Hart, q: Queue, now: nat)
      requires Placed(procs.t, None) && OfLocks(q) && h < NR_CPUS && procs.t.running[h] >= NR_CPUS
      modifies procs
      ensures Relisted(old(procs.t), procs.t, q, old(Q(procs.t, q)) + [old(procs.t.running[h])])
      ensures Departed(old(procs.t), h, now, procs.t, []) && Elsewhere(old(procs.t), procs.t, [], None)
    {
      procs.Park(h, q, now);
      ParkedIs(old(procs.t), h, q, now, procs.t);
    }

    /** Makes the first process on a list ready. */
    method WakeFirst(q: Queue)
      requires Placed(procs.t, None) && OfLocks(q) && Q(procs.t, q) != []
      modifies procs
      ensures Relisted(old(procs.t), procs.t, q, old(Q(procs.t, q))[1..])
      ensures Rested(old(procs.t), procs.t, old(Q(procs.t, q))[..1]) && Elsewhere(old(procs.t), procs.t, [], None)
    {
      assert QueueOk(procs.t, q) && LinkedOn(procs.t, q, Q(procs.t, q)[0]);
      procs.UnblockFirst(q, None);
    }

    /** Makes everybody on a list ready. */
    method Flush(q: Queue)
      requires Placed(procs.t, None) && OfLocks(q)
      modifies procs
      ensures Relisted(old(procs.t), procs.t, q, []) && Emptied(old(procs.t), procs.t, {q}, old(Q(procs.t, q)))
      ensures Rested(old(procs.t), procs.t, old(Q(procs.t, q))) && Elsewhere(old(procs.t), procs.t, [], None)
    {
      assert QueueOk(procs.t, q);
      procs.UnblockList(q, None);
    }

    /** Looks a key up: the lock in use under it, or else the first one not in use, or the end. */
    method FindSlot(refs: seq<Ref>, key: int) returns (i: nat, known: bool)
      ensures i == SlotFor(refs, key) && known == Known(refs, key)
    {
      i, known := 0, false;
      while i < |refs| && !(refs[i].Used() && refs[i].key == key)
        invariant i <= |refs| && WithKey(refs, key, 0) == WithKey(refs, key, i)
      {
        i := i + 1;
      }
      known := i < |refs|;
      if known {
        return;
      }
      i := 0;
      while i < |refs| && refs[i].Used()
        invariant i <= |refs| && FirstUnused(refs, 0) == FirstUnused(refs, i)
      {
        i := i + 1;
      }
    }

    /** do_mutex_lock_init: a key in use gets one more user; else the first mutex not in use is set up, even if some
        process that never initialised it holds it. */
    method InitMutex(h: Hart, key: int)
      requires Fit() && h < NR_CPUS && procs.t.running[h] in procs.t.pcbs
      modifies this`mutexRefs, this`mutexes, this`stolen, this`halted, procs
      ensures halted == old(Halts(Now(), MutexInit(key)))
      ensures !halted ==> Made(old(Now()), h, MutexInit(key), 0, Now())
    {
      var p := procs.t.running[h];
      var i, known := FindSlot(mutexRefs, key);
      if i == |mutexRefs| {
        halted := true;
        return;
      }
      stolen := stolen + Steals(B(), p, MutexInit(key));
      if !known {
        mutexes := mutexes[i := Mutex(true, false, -1)];
        SetUpList(LockOf(i));
      }
      mutexRefs := mutexRefs[i := Ref(key, mutexRefs[i].users + {p})];
    }

    /** One turn of the acquire loop by the process on h: it takes a free mutex, or queues up and lets
        another process run; once woken it takes another turn. */
    method AcquireTurn(h: Hart, i: nat, now: nat)
      requires Fit() && h < NR_CPUS && procs.t.running[h] >= NR_CPUS && i < LOCK_NUM
      modifies this`mutexes, this`holders, this`pending, this`halted, procs
      ensures halted == old(Halts(Now(), Acquire(i)))
      ensures !halted ==> Made(old(Now()), h, Acquire(i), now, Now())
      ensures !old(mutexes[i].acquired) ==> procs.t == old(procs.t)
    {
      var p := procs.t.running[h];
      if !mutexes[i].acquired {
        mutexes := mutexes[i := mutexes[i].(acquired := true, pid := p)];
        holders := holders[i := holders[i] + {p}];
        pending := pending - {p};
      } else if !mutexes[i].linked {
        halted := true;
      } else {
        Enqueue(h, LockOf(i), now);
        pending := pending[p := i];
      }
    }

    /** Frees mutex i on behalf of p and makes every process queued on it ready. */
    method FreeMutex(i: nat, p: Pid, ghost gap: Option<Hart>)
      requires Placed(procs.t, gap) && B().Sized() && i < LOCK_NUM
      modifies this`mutexes, this`holders, procs
      ensures B() == Released(old(B()), i, p)
      ensures Placed(procs.t, gap) && Woken(old(procs.t), procs.t, LockOf(i), old(Q(procs.t, LockOf(i))))
      ensures Q(procs.t, LockOf(i)) == []
    {
      mutexes := mutexes[i := mutexes[i].(acquired := false)];
      holders := holders[i := holders[i] - {p}];
      procs.UnblockList(LockOf(i), gap);
    }

    /** Release by the process on h: refused unless it is the recorded holder; then every waiter becomes
        ready, in order. */
    method Release(h: Hart, i: nat)
      requires Fit() && h < NR_CPUS && i < LOCK_NUM && procs.t.running[h] in procs.t.pcbs
      modifies this`mutexes, this`holders, procs
      ensures Made(old(Now()), h, Unlock(i), 0, Now())
    {
      var p := procs.t.running[h];
      if mutexRefs[i].Used() && mutexes[i].pid == p {
        assert QueueOk(procs.t, LockOf(i));
        FreeMutex(i, p, None);
      }
    }

    /** The caller queues on condition c, and mutex i is freed. */
    method BlockAndFree(h: Hart, c: nat, i: nat)
      requires Placed(procs.t, None) && B().Sized() && h < NR_CPUS && procs.t.running[h] >= NR_CPUS && i < LOCK_NUM
      modifies this`mutexes, this`holders, procs
      ensures B() == Released(old(B()), i, old(procs.t.running[h]))
      ensures Placed(procs.t, Some(h)) && procs.t.pcbs.Keys == old(procs.t).pcbs.Keys
      ensures Parted(old(procs.t), h, procs.t, old(Q(procs.t, LockOf(i)))) && Q(procs.t, LockOf(i)) == []
      ensures Q(procs.t, CondOf(c)) == old(Q(procs.t, CondOf(c))) + [old(procs.t.running[h])]
      ensures forall q :: q !in {Ready, LockOf(i), CondOf(c)} ==> Q(procs.t, q) == old(Q(procs.t, q))
    {
      ghost var t := procs.t;
      var p := procs.t.running[h];
      procs.DoBlock(h, CondOf(c));
      FreeMutex(i, p, Some(h));
      PartedByWait(t, h, c, i, procs.t);
    }

    /** The caller queues on condition c, mutex i is freed, and another process runs. */
    method QueueAndFree(h: Hart, c: nat, i: nat, now: nat)
      requires Placed(procs.t, None) && B().Sized() && h < NR_CPUS && procs.t.running[h] >= NR_CPUS && i < LOCK_NUM
      modifies this`mutexes, this`holders, procs
      ensures B() == Released(old(B()), i, old(procs.t.running[h]))
      ensures Placed(procs.t, None) && procs.t.pcbs.Keys == old(procs.t).pcbs.Keys
      ensures Departed(old(procs.t), h, now, procs.t, old(Q(procs.t, LockOf(i))))
      ensures Elsewhere(old(procs.t), procs.t, [], None) && Q(procs.t, LockOf(i)) == []
      ensures Q(procs.t, CondOf(c)) == old(Q(procs.t, CondOf(c))) + [old(procs.t.running[h])]
      ensures forall q :: OfLocks(q) && q != LockOf(i) && q != CondOf(c) ==> Q(procs.t, q) == old(Q(procs.t, q))
    {
      ghost var t := procs.t;
      BlockAndFree(h, c, i);
      ghost var mid := procs.t;
      procs.DoScheduler(h, now, Some(h));
      DepartedIs(t, h, now, mid, procs.t, Q(t, LockOf(i)));
    }

    /** The wait itself, on a condition in use with a mutex that was set up once. */
    method WaitInUse(h: Hart, c: nat, i: nat, now: nat)
      requires Fit() && h < NR_CPUS && procs.t.running[h] >= NR_CPUS && i < LOCK_NUM && InUse(condRefs, c)
      requires mutexes[i].linked
      modifies this`mutexes, this`holders, this`stolen, this`pending, procs
      ensures Made(old(Now()), h, WaitOn(c, i), now, Now())
    {
      var p := procs.t.running[h];
      ghost var b := B();
      QueueAndFree(h, c, i, now);
      stolen := stolen + Steals(b, p, WaitOn(c, i));
      pending := pending[p := i];
    }

    /** Waits on condition c: the caller queues, mutex i is freed whoever holds it, another process runs, and
        once woken the caller takes the mutex again. */
    method CondWait(h: Hart, c: nat, i: nat, now: nat)
      requires Fit() && h < NR_CPUS && procs.t.running[h] >= NR_CPUS && c < LOCK_NUM && i < LOCK_NUM
      modifies this`mutexes, this`holders, this`stolen, this`pending, this`halted, procs
      ensures halted == old(Halts(Now(), WaitOn(c, i)))
      ensures !halted ==> Made(old(Now()), h, WaitOn(c, i), now, Now())
    {
      if !condRefs[c].Used() {
        RunningUnqueued(procs.t, h, Ready);
        return;
      }
      if !mutexes[i].linked {
        halted := true;
        return;
      }
      WaitInUse(h, c, i, now);
    }

    method InitCond(h: Hart, key: int)
      requires Fit() && h < NR_CPUS && procs.t.running[h] in procs.t.pcbs
      modifies this`condRefs, this`halted, procs
      ensures halted == old(Halts(Now(), CondInit(key)))
      ensures !halted ==> Made(old(Now()), h, CondInit(key), 0, Now())
    {
      var i, known := FindSlot(condRefs, key);
      if i == |condRefs| {
        halted := true;
        return;
      }
      if !known {
        SetUpList(CondOf(i));
      }
      condRefs := condRefs[i := Ref(key, condRefs[i].users + {procs.t.running[h]})];
    }

    /** Nobody uses the condition any more; whoever waits on it becomes ready. */
    method DestroyCond(h: Hart, c: nat)
      requires Fit() && h < NR_CPUS && c < LOCK_NUM
      modifies this`condRefs, procs
      ensures Made(old(Now()), h, CondDestroy(c), 0, Now())
    {
      if condRefs[c].Used() {
        condRefs := condRefs[c := Ref(condRefs[c].key, {})];
        Flush(CondOf(c));
      }
    }

    /** Wakes the first process waiting on a condition. */
    method CondSignal(h: Hart, c: nat)
      requires Fit() && h < NR_CPUS && c < LOCK_NUM
      modifies procs
      ensures Made(old(Now()), h, Signal(c), 0, Now())
    {
      if condRefs[c].Used() && Q(procs.t, CondOf(c)) != [] {
        WakeFirst(CondOf(c));
      }
    }

    /** Wakes every process waiting on a condition. */
    method CondBroadcast(h: Hart, c: nat)
      requires Fit() && h < NR_CPUS && c < LOCK_NUM
      modifies procs
      ensures Made(old(Now()), h, Broadcast(c), 0, Now())
    {
      if condRefs[c].Used() {
        Flush(CondOf(c));
      }
    }

    /** A semaphore set up anew also counts the first process of the table, a kernel process, as its user. */
    method InitSem(h: Hart, key: int, init: int)
      requires Fit() && h < NR_CPUS && procs.t.running[h] in procs.t.pcbs
      modifies this`semRefs, this`counts, this`semLogs, this`halted, procs
      ensures halted == old(Halts(Now(), SemInit(key, init)))
      ensures !halted ==> Made(old(Now()), h, SemInit(key, init), 0, Now())
    {
      var i, known := FindSlot(semRefs, key);
      if i == |semRefs| {
        halted := true;
        return;
      }
      if !known {
        assert semRefs[i].users + {0, procs.t.running[h]} == {0} + {procs.t.running[h]};
        semRefs, counts := semRefs[i := Ref(key, {0})], counts[i := init];
        semLogs := semLogs[i := SemLog(init, 0, 0)];
        SetUpList(SemOf(i));
      }
      semRefs := semRefs[i := Ref(key, semRefs[i].users + {procs.t.running[h]})];
    }

    method DestroySem(h: Hart, i: nat)
      requires Fit() && h < NR_CPUS && i < LOCK_NUM
      modifies this`semRefs, this`counts, procs
      ensures Made(old(Now()), h, SemDestroy(i), 0, Now())
    {
      if semRefs[i].Used() {
        semRefs, counts := semRefs[i := Ref(-1, {})], counts[i := 0];
        Flush(SemOf(i));
      }
    }

    /** Takes one unit; when there is none the caller queues up. Nothing happens to an unused semaphore. */
    method Down(h: Hart, i: nat, now: nat)
      requires Fit() && h < NR_CPUS && procs.t.running[h] >= NR_CPUS && i < LOCK_NUM
      modifies this`counts, this`semLogs, procs
      ensures Made(old(Now()), h, SemDown(i), now, Now())
    {
      if semRefs[i].Used() {
        counts := counts[i := counts[i] - 1];
        semLogs := semLogs[i := semLogs[i].(downs := semLogs[i].downs + 1)];
        if counts[i] < 0 {
          Enqueue(h, SemOf(i), now);
        }
      }
    }

    /** Gives one unit; if anybody lacks one, the first in the queue becomes ready. */
    method Up(h: Hart, i: nat)
      requires Fit() && h < NR_CPUS && i < LOCK_NUM
      modifies this`counts, this`semLogs, this`halted, procs
      ensures halted == old(Halts(Now(), SemUp(i)))
      ensures !halted ==> Made(old(Now()), h, SemUp(i), 0, Now())
    {
      if semRefs[i].Used() {
        counts := counts[i := counts[i] + 1];
        semLogs := semLogs[i := semLogs[i].(ups := semLogs[i].ups + 1)];
        if counts[i] <= 0 {
          if Q(procs.t, SemOf(i)) == [] {
            halted := true;
            return;
          }
          WakeFirst(SemOf(i));
        }
      }
    }

    method InitBar(h: Hart, key: int, goal: int)
      requires Fit() && h < NR_CPUS && procs.t.running[h] in procs.t.pcbs
      modifies this`barRefs, this`bars, this`barLogs, this`halted, procs
      ensures halted == old(Halts(Now(), BarInit(key, goal)))
      ensures !halted ==> Made(old(Now()), h, BarInit(key, goal), 0, Now())
    {
      var i, known := FindSlot(barRefs, key);
      if i == |barRefs| {
        halted := true;
        return;
      }
      if !known {
        bars := bars[i := Bar(goal, 0)];
        barLogs := barLogs[i := BarLog(0, 0)];
        SetUpList(BarOf(i));
      }
      barRefs := barRefs[i := barRefs[i].(users := barRefs[i].users + {procs.t.running[h]})];
    }

    method DestroyBar(h: Hart, i: nat)
      requires Fit() && h < NR_CPUS && i < LOCK_NUM
      modifies this`barRefs, procs
      ensures Made(old(Now()), h, BarDestroy(i), 0, Now())
    {
      if barRefs[i].Used() {
        barRefs := barRefs[i := Ref(barRefs[i].key, {})];
        Flush(BarOf(i));
      }
    }

    /** Arrives at a barrier: all but the last of each round queue up; the last one lets them all go. */
    method BarrierWait(h: Hart, i: nat, now: nat)
      requires Fit() && h < NR_CPUS && procs.t.running[h] >= NR_CPUS && i < LOCK_NUM
      modifies this`bars, this`barLogs, this`halted, procs
      ensures halted == old(Halts(Now(), Arrive(i)))
      ensures !halted ==> Made(old(Now()), h, Arrive(i), now, Now())
    {
      if !barRefs[i].Used() {
        return;
      }
      if bars[i].current >= bars[i].goal {
        halted := true;
        return;
      }
      var current := bars[i].current + 1;
      if current < bars[i].goal {
        bars := bars[i := bars[i].(current := current)];
        barLogs := barLogs[i := barLogs[i].(arrivals := barLogs[i].arrivals + 1)];
        Enqueue(h, BarOf(i), now);
      } else {
        bars := bars[i := bars[i].(current := 0)];
        barLogs := barLogs[i := BarLog(barLogs[i].arrivals + 1, barLogs[i].freed + current)];
        Flush(BarOf(i));
      }
    }

    // ---- exit ----

    /** Takes p off the users of one lock; a lock without users has its list emptied. */
    method DropUser(q: Queue, r: Ref, p: Pid) returns (left: Ref)
      requires Placed(procs.t, None) && OfLocks(q)
      modifies procs
      ensures left == r.(users := r.users - {p})
      ensures if r.users == {p} then Emptied(old(procs.t), procs.t, {q}, old(Q(procs.t, q))) else procs.t == old(procs.t)
    {
      left := r.(users := r.users - {p});
      if p in r.users && left.users == {} {
        assert r.users == {p};
        Flush(q);
      }
    }

    /** Takes p off the users of lock i, after the locks before it. */
    method DropNext(kind: Kind, refs: seq<Ref>, i: nat, p: Pid, ghost t: Table, ghost qs: set<Queue>,
                    ghost woken: seq<Pid>)
      returns (left: Ref)
      requires i < |refs| && Placed(procs.t, None) && DroppedUpTo(t, procs.t, kind, refs, p, i, qs, woken)
      modifies procs
      ensures left == refs[i].(users := refs[i].users - {p}) && Placed(procs.t, None)
      ensures DroppedUpTo(t, procs.t, kind, refs, p, i + 1, qs, woken)
    {
      left := DropUser(ListOf(kind, i), refs[i], p);
      DroppedMore(kind, refs, p, i, t, old(procs.t), procs.t, qs, woken);
    }

    /** Takes p off the users of every lock of a kind, after lists qs of table t were emptied. */
    method DropUsers(kind: Kind, refs: seq<Ref>, p: Pid, ghost t: Table, ghost qs: set<Queue>, ghost woken: seq<Pid>)
      returns (left: seq<Ref>)
      requires Placed(procs.t, None) && Emptied(t, procs.t, qs, woken)
      modifies procs
      ensures left == Left(refs, p)
      ensures Emptied(t, procs.t, qs + LastLists(kind, refs, p, |refs|),
                      woken + LastWoken(refs, t, kind, p, |refs|, qs))
    {
      left := refs;
      LeftEnds(refs, p);
      DroppedNone(t, procs.t, kind, refs, p, qs, woken);
      var i := 0;
      while i < |refs|
        invariant 0 <= i <= |refs| && left == LeftUpTo(refs, p, i)
        invariant Placed(procs.t, None) && DroppedUpTo(t, procs.t, kind, refs, p, i, qs, woken)
      {
        var r := DropNext(kind, refs, i, p, t, qs, woken);
        LeftMore(refs, p, i);
        left := left[i := r];
        i := i + 1;
      }
    }

    /** Frees every mutex in use whose recorded holder is p. */
    method FreeHeld(p: Pid)
      requires Placed(procs.t, None) && B().Sized()
      modifies this`mutexes, this`holders, procs
      ensures B() == HeldFreed(old(B()), p, LOCK_NUM)
      ensures Emptied(old(procs.t), procs.t, HeldLists(old(B()), p, LOCK_NUM),
                      HeldWoken(old(B()), old(procs.t), p, |old(mutexRefs)|))
    {
      ghost var b := B();
      assert B() == HeldFreed(b, p, 0);
      EmptiedNone(procs.t);
      var i := 0;
      while i < LOCK_NUM
        invariant 0 <= i <= LOCK_NUM && B() == HeldFreed(b, p, i)
        invariant Emptied(old(procs.t), procs.t, HeldLists(b, p, i), HeldWoken(b, old(procs.t), p, i))
      {
        HeldMore(b, p, i);
        if mutexRefs[i].Used() && mutexes[i].acquired && mutexes[i].pid == p {
          ghost var mid := procs.t;
          FreeMutex(i, p, None);
          WokenEmptied(mid, procs.t, LockOf(i));
          EmptiedMore(old(procs.t), mid, procs.t, HeldLists(b, p, i), HeldWoken(b, old(procs.t), p, i),
                      {LockOf(i)}, Q(mid, LockOf(i)));
        } else {
          assert HeldLists(b, p, i + 1) == HeldLists(b, p, i);
          assert HeldWoken(b, old(procs.t), p, i + 1) == HeldWoken(b, old(procs.t), p, i);
        }
        i := i + 1;
      }
    }

    /** Frees the mutexes p holds, and destroys those it was the last to use, whoever holds them. */
    method CleanupMutexes(p: Pid)
      requires Placed(procs.t, None) && B().Sized()
      modifies this`mutexRefs, this`mutexes, this`holders, this`stolen, procs
      ensures B() == MutexesLeft(old(B()), p)
      ensures Emptied(old(procs.t), procs.t, MutexLists(old(B()), p), MutexWoken(old(Now()), p))
    {
      ghost var b := B();
      FreeHeld(p);
      stolen := stolen + Steals(b, p, Quit);
      HeldThenLast(b, p);
      mutexes := Opened(mutexRefs, mutexes, p);
      holders := HoldsEnded(mutexRefs, holders, p);
      mutexRefs := DropUsers(LockKind, mutexRefs, p, old(procs.t), HeldLists(b, p, LOCK_NUM),
                             HeldWoken(b, old(procs.t), p, |b.mutexRefs|));
    }

    /** The same, where none of the kind's lists was emptied before. */
    method DropAll(kind: Kind, refs: seq<Ref>, p: Pid, ghost t: Table, ghost qs: set<Queue>, ghost woken: seq<Pid>)
      returns (left: seq<Ref>)
      requires |refs| == LOCK_NUM && Placed(procs.t, None) && Emptied(t, procs.t, qs, woken)
      requires forall i :: ListOf(kind, i) !in qs
      modifies procs
      ensures left == Left(refs, p) && Placed(procs.t, None)
      ensures Emptied(t, procs.t, qs + LastLists(kind, refs, p, LOCK_NUM),
                      woken + LastWoken(refs, t, kind, p, |refs|, {}))
    {
      LastWokenSame(refs, t, kind, p, |refs|, qs);
      left := DropUsers(kind, refs, p, t, qs, woken);
    }

    /** Takes p off every lock that is no mutex, after lists qs of table t were emptied. */
    method CleanupOthers(p: Pid, ghost t: Table, ghost qs: set<Queue>, ghost woken: seq<Pid>)
      requires B().Sized() && Placed(procs.t, None) && Emptied(t, procs.t, qs, woken)
      requires forall i :: BarOf(i) !in qs && CondOf(i) !in qs && SemOf(i) !in qs
      modifies this`condRefs, this`semRefs, this`counts, this`barRefs, procs
      ensures barRefs == Left(old(barRefs), p) && condRefs == Left(old(condRefs), p) && semRefs == Left(old(semRefs), p)
      ensures counts == Zeroed(old(semRefs), old(counts), p)
      ensures Emptied(t, procs.t, OtherLists(old(B()), p, qs), OtherWoken(old(B()), t, p, woken))
    {
      ghost var b, w, qs1 := B(), woken, qs;
      barRefs := DropAll(BarKind, barRefs, p, t, qs1, w);
      w := w + LastWoken(b.barRefs, t, BarKind, p, |b.barRefs|, {});
      qs1 := qs1 + LastLists(BarKind, b.barRefs, p, LOCK_NUM);
      KindsApart(BarKind, b.barRefs, p);
      condRefs := DropAll(CondKind, condRefs, p, t, qs1, w);
      w := w + LastWoken(b.condRefs, t, CondKind, p, |b.condRefs|, {});
      qs1 := qs1 + LastLists(CondKind, b.condRefs, p, LOCK_NUM);
      KindsApart(CondKind, b.condRefs, p);
      counts := Zeroed(semRefs, counts, p);
      semRefs := DropAll(SemKind, semRefs, p, t, qs1, w);
    }

    /** Takes p off every lock. */
    method CleanupLocks(p: Pid)
      requires Fit()
      modifies this`mutexRefs, this`mutexes, this`holders, this`stolen, procs
      modifies this`condRefs, this`semRefs, this`counts, this`barRefs
      ensures B() == BooksAfter(old(B()), p, Quit)
      ensures Emptied(old(procs.t), procs.t, ExitLists(old(B()), p), ExitWoken(old(Now()), p))
    {
      ghost var l := Now();
      ExitBooks(l.b, p);
      CleanupMutexes(p);
      CleanupOthers(p, l.t, MutexLists(l.b, p), MutexWoken(l, p));
    }

    /** The process on h ends: it leaves every lock, those nobody uses any more are destroyed, and another process
        runs. */
    method Exit(h: Hart, now: nat)
      requires Fit() && h < NR_CPUS && procs.t.running[h] >= NR_CPUS
      modifies this`mutexRefs, this`mutexes, this`holders, this`stolen, procs
      modifies this`condRefs, this`semRefs, this`counts, this`barRefs
      ensures Made(old(Now()), h, Quit, now, Now())
    {
      var p := procs.t.running[h];
      ghost var l := Now();
      CleanupLocks(p);
      ghost var mid := procs.t;
      procs.DoExit(h, now);
      ExitMade(l, h, now, mid, Now());
    }

    // ---- steps ----

    method DoMutexOrCond(h: Hart, c: Call, now: nat)
      requires Fit() && h < NR_CPUS && procs.t.running[h] >= NR_CPUS && procs.t.running[h] in procs.t.pcbs
      requires c.MutexInit? || c.Acquire? || c.Unlock? || c.CondInit? || c.CondDestroy? || c.WaitOn? || c.Signal?
        || c.Broadcast?
      modifies this, procs
      ensures halted == old(Halts(Now(), c))
      ensures !halted ==> Made(old(Now()), h, c, now, Now())
    {
      match c
      case MutexInit(key) => InitMutex(h, key);
      case Acquire(i) => if i < LOCK_NUM { AcquireTurn(h, i, now); }
      case Unlock(i) => if i < LOCK_NUM { Release(h, i); }
      case CondInit(key) => InitCond(h, key);
      case CondDestroy(d) => if d < LOCK_NUM { DestroyCond(h, d); }
      case WaitOn(d, i) => if d < LOCK_NUM && i < LOCK_NUM { CondWait(h, d, i, now); }
      case Signal(d) => if d < LOCK_NUM { CondSignal(h, d); }
      case Broadcast(d) => if d < LOCK_NUM { CondBroadcast(h, d); }
    }

    /** Carries out one call of the process on h. */
    method Do(h: Hart, c: Call, now: nat)
      requires Fit() && h < NR_CPUS && procs.t.running[h] >= NR_CPUS && procs.t.running[h] in procs.t.pcbs
      modifies this, procs
      ensures halted == old(Halts(Now(), c))
      ensures !halted ==> Made(old(Now()), h, c, now, Now())
    {
      match c
      case SemInit(key, init) => InitSem(h, key, init);
      case SemDestroy(i) => if i < LOCK_NUM { DestroySem(h, i); }
      case SemDown(i) => if i < LOCK_NUM { Down(h, i, now); }
      case SemUp(i) => if i < LOCK_NUM { Up(h, i); }
      case BarInit(key, goal) => InitBar(h, key, goal);
      case BarDestroy(i) => if i < LOCK_NUM { DestroyBar(h, i); }
      case Arrive(i) => if i < LOCK_NUM { BarrierWait(h, i, now); }
      case Quit => Exit(h, now);
      case _ => DoMutexOrCond(h, c, now);
    }

    /** What the user process on h does next. */
    method LockStep(h: Hart, c0: Call, now: nat)
      requires Fit() && h < NR_CPUS && procs.t.running[h] >= NR_CPUS && forall p :: PendingAt(B(), p)
      modifies this, procs
      ensures halted == old(HaltsAt(Now(), OnLock(h, c0, now)))
      ensures !halted ==> Stepped(old(Now()), OnLock(h, c0, now), Now())
    {
      var p := procs.t.running[h];
      RunningUnqueued(procs.t, h, Ready);
      assert PendingAt(B(), p);
      var c := if p in pending then Acquire(pending[p]) else c0;
      Do(h, c, now);
    }

    /** A step that concerns no lock: a process starts, yields, sleeps or waits for another to exit. */
    method OtherStep(e: Event)
      requires Fit() && e.hart < NR_CPUS && (e.act.Exec? || e.act.Yield? || e.act.DoSleepFor? || e.act.WaitFor?)
      modifies procs
      ensures Beside(old(Now()), Now()) && Acted(old(procs.t), e, procs.t)
    {
      RunningUnqueued(procs.t, e.hart, Ready);
      procs.Apply(e);
      forall q | OfLocks(q) ensures Q(procs.t, q) == old(Q(procs.t, q)) { ActedList(old(procs.t), e, procs.t, q); }
      ActedList(old(procs.t), e, procs.t, LockOf(0));
    }

    /** One step of one hart. A process inside an acquire can only be preempted or go on with it. */
    method Step(s: Step)
      requires Fit() && Good(Now())
      modifies this, procs
      ensures halted == old(HaltsAt(Now(), s))
      ensures !halted ==> Stepped(old(Now()), s, Now())
    {
      match s
      case Other(e) =>
        if && e.hart < NR_CPUS && (e.act.Yield? || procs.t.running[e.hart] !in pending)
           && (e.act.Exec? || e.act.Yield? || e.act.DoSleepFor? || e.act.WaitFor?) {
          OtherStep(e);
        }
      case OnLock(h, c, now) =>
        if h < NR_CPUS && procs.t.running[h] >= NR_CPUS { LockStep(h, c, now); }
    }

    /** Any interleaving of any calls is a chain of steps, cut short exactly where a step halts the kernel. What is
        proved of chains (RunGood, Exclusion) therefore holds of the kernel. */
    method Run(steps: seq<Step>) returns (done: nat, ghost seen: seq<Locks>)
      requires Good(Now()) && !halted
      modifies this, procs
      ensures done <= |steps| && |seen| == done + 1 && Chain(seen, steps) && seen[0] == old(Now())
      ensures forall k :: 0 <= k < done ==> !HaltsAt(seen[k], steps[k])
      ensures halted <==> done < |steps|
      ensures halted ==> HaltsAt(seen[done], steps[done])
      ensures !halted ==> seen[done] == Now() && Good(Now())
    {
      done, seen := 0, [Now()];
      while done < |steps|
        invariant done <= |steps| && |seen| == done + 1 && Chain(seen, steps) && seen[0] == old(Now())
        invariant forall k :: 0 <= k < done ==> !HaltsAt(seen[k], steps[k])
        invariant !halted && seen[done] == Now() && Good(Now())
      {
        Step(steps[done]);
        if halted {
          return;
        }
        StepGood(seen[done], steps[done], Now());
        ChainMore(seen, steps, Now());
        seen := seen + [Now()];
        done := done + 1;
      }
    }
  }

  // ---- what can go wrong ----

  /** A new process is the last ready one and may run where it was started for. */
  lemma SpawnedLast(t: Table, affinity: set<Hart>)
    requires Placed(t, None)
    ensures var r, n := Spawn(t, affinity), |Q(t, Ready)|;
      && |Q(r, Ready)| == n + 1 && Q(r, Ready)[n] == t.nextPid && r.running == t.running
      && r.pcbs.Keys == t.pcbs.Keys + {t.nextPid} && r.pcbs[t.nextPid].affinity == affinity
      && forall q :: q != Ready ==> Q(r, q) == Q(t, q)
  {
  }

  /** Starts a process and lets hart h run it. */
  method RunNew(procs: Processes, h: Hart) returns (p: Pid)
    requires Placed(procs.t, None) && h < NR_CPUS && |procs.t.pcbs| < NR_CPUS + NUM_MAX_TASK
    modifies procs
    ensures Placed(procs.t, None) && p >= NR_CPUS && p !in old(procs.t).pcbs
    ensures procs.t.pcbs.Keys == old(procs.t).pcbs.Keys + {p}
    ensures procs.t.running == old(procs.t.running)[h := p] && p in procs.t.pcbs
    ensures forall q :: OfLocks(q) ==> Q(procs.t, q) == old(Q(procs.t, q))
  {
    var i := |Q(procs.t, Ready)|;
    var r := procs.DoExec({h});
    p := r.value;
    SpawnedLast(old(procs.t), {h});
    procs.SwitchTo(h, i);
  }

  /** A machine with a user process on each hart, and nothing initialised. */
  method Boot() returns (m: Machine, a: Pid, b: Pid)
    ensures fresh(m) && fresh(m.procs) && m.Fit() && m.procs.t.pcbs.Keys == {0, 1, a, b}
    ensures a != b && a in m.procs.t.pcbs && b in m.procs.t.pcbs && a >= NR_CPUS && b >= NR_CPUS
    ensures m.procs.t.running == [a, b]
    ensures forall i :: 0 <= i < LOCK_NUM ==>
      && m.mutexRefs[i].users == m.condRefs[i].users == m.semRefs[i].users == m.barRefs[i].users == {}
      && m.mutexes[i] == Mutex(false, false, 0) && m.holders[i] == {} && m.barRefs[i].key == 0
      && Q(m.procs.t, SemOf(i)) == Q(m.procs.t, BarOf(i)) == []
  {
    m := new Machine();
    forall i ensures Q(m.procs.t, SemOf(i)) == Q(m.procs.t, BarOf(i)) == [] {
      assert SemAt(m.Now(), i) && BarAt(m.Now(), i);
    }
    a := RunNew(m.procs, 0);
    b := RunNew(m.procs, 1);
    assert m.procs.t.pcbs.Keys == {0, 1, a, b};
  }

  /** The process on h takes mutex 0, which is free. */
  method TakeFree(m: Machine, h: Hart)
    requires m.Fit() && h < NR_CPUS && m.procs.t.running[h] >= NR_CPUS && m.procs.t.running[h] in m.procs.t.pcbs
    requires !m.mutexes[0].acquired
    modifies m`mutexes, m`holders, m`pending, m`halted, m.procs
    ensures m.Fit() && m.procs.t == old(m.procs.t) && m.holders[0] == old(m.holders[0]) + {m.procs.t.running[h]}
    ensures m.mutexes[0] == old(m.mutexes[0]).(acquired := true, pid := m.procs.t.running[h])
  {
    m.AcquireTurn(h, 0, 0);
  }

  /** The process on h is the first to initialise a mutex, and gets mutex 0. */
  method InitFirst(m: Machine, h: Hart)
    requires m.Fit() && h < NR_CPUS && m.procs.t.running[h] in m.procs.t.pcbs
    requires forall i :: 0 <= i < LOCK_NUM ==> m.mutexRefs[i].users == {}
    modifies m`mutexRefs, m`mutexes, m`stolen, m`halted, m.procs
    ensures m.Fit() && m.procs.t.running == old(m.procs.t.running) && m.procs.t.pcbs.Keys == old(m.procs.t).pcbs.Keys
    ensures m.mutexes[0] == Mutex(true, false, -1) && m.mutexRefs[0].users == {m.procs.t.running[h]}
  {
    FirstSlot(m.mutexRefs, 7);
    m.InitMutex(h, 7);
  }

  /** The process on h initialises a condition and waits on it with mutex 0. */
  method WaitFirst(m: Machine, h: Hart)
    requires m.Fit() && h < NR_CPUS && m.procs.t.running[h] >= NR_CPUS && m.procs.t.running[h] in m.procs.t.pcbs
    requires m.mutexes[0].linked && forall i :: 0 <= i < LOCK_NUM ==> m.condRefs[i].users == {}
    modifies m`condRefs, m`mutexes, m`holders, m`stolen, m`pending, m`halted, m.procs
    ensures m.Fit() && m.procs.t.running == old(m.procs.t.running)[h := m.procs.t.running[h]]
    ensures m.procs.t.pcbs.Keys == old(m.procs.t).pcbs.Keys
    ensures !m.mutexes[0].acquired && m.holders[0] == old(m.holders[0]) - {old(m.procs.t.running[h])}
  {
    FirstSlot(m.condRefs, 7);
    m.InitCond(h, 7);
    m.CondWait(h, 0, 0, 0);
  }

  /** The process on h exits as the last user of mutex 0. */
  method LeaveLast(m: Machine, h: Hart)
    requires m.Fit() && h < NR_CPUS && m.procs.t.running[h] >= NR_CPUS && m.mutexRefs[0].users == {m.procs.t.running[h]}
    modifies m, m.procs
    ensures m.Fit() && m.procs.t.running == old(m.procs.t.running)[h := m.procs.t.running[h]]
    ensures m.procs.t.pcbs.Keys == old(m.procs.t).pcbs.Keys - {old(m.procs.t.running[h])}
    ensures !m.mutexes[0].acquired && m.holders[0] == old(m.holders[0]) - {old(m.procs.t.running[h])}
  {
    ghost var b := m.B();
    m.Exit(h, 0);
    ExitedAt(b, old(m.procs.t.running[h]), 0);
  }

  /** The process on hart 0 sets the first semaphore up. */
  method InitFirstSem(m: Machine, init: int)
    requires m.Fit() && m.procs.t.running[0] in m.procs.t.pcbs && Q(m.procs.t, SemOf(0)) == []
    requires forall i :: 0 <= i < LOCK_NUM ==> m.semRefs[i].users == {}
    modifies m`semRefs, m`counts, m`semLogs, m`halted, m.procs
    ensures m.Fit() && m.semRefs[0].Used() && m.counts[0] == init && Q(m.procs.t, SemOf(0)) == []
  {
    FirstSlot(m.semRefs, 7);
    m.InitSem(0, 7, init);
  }

  /** A semaphore started at -1: the first up finds nobody to wake, and the assertion fails. */
  method UpBelowZero() returns (stopped: bool)
    ensures stopped
  {
    var m, a, b := Boot();
    InitFirstSem(m, -1);
    m.Up(0, 0);
    stopped := m.halted;
  }

  /** A barrier for nobody: the first process to arrive fails the assertion. */
  method BarrierForNone() returns (stopped: bool)
    ensures stopped
  {
    var m, a, b := Boot();
    FirstSlot(m.barRefs, 7);
    m.InitBar(0, 7, 0);
    m.BarrierWait(0, 0, 0);
    stopped := m.halted;
  }

  /** Two processes initialise a barrier for two under one key, and get two. */
  method TwoBarriers() returns (m: Machine, a: Pid, b: Pid)
    ensures fresh(m) && fresh(m.procs) && m.Fit() && m.procs.t.running == [a, b] && a >= NR_CPUS && b >= NR_CPUS
    ensures forall i :: 0 <= i < 2 ==> m.barRefs[i].Used() && m.bars[i] == Bar(2, 0) && Q(m.procs.t, BarOf(i)) == []
  {
    m, a, b := Boot();
    FirstSlot(m.barRefs, 7);
    m.InitBar(0, 7, 2);
    SecondSlot(m.barRefs, 7);
    m.InitBar(1, 7, 2);
  }

  /** The process on h arrives first at a barrier for two. */
  method ArriveFirst(m: Machine, h: Hart, i: nat)
    requires m.Fit() && h < NR_CPUS && m.procs.t.running[h] >= NR_CPUS && i < LOCK_NUM
    requires m.barRefs[i].Used() && m.bars[i] == Bar(2, 0)
    modifies m`bars, m`barLogs, m`halted, m.procs
    ensures m.Fit() && m.procs.t.running == old(m.procs.t.running)[h := m.procs.t.running[h]]
    ensures m.bars == old(m.bars)[i := Bar(2, 1)]
    ensures Q(m.procs.t, BarOf(i)) == old(Q(m.procs.t, BarOf(i))) + [old(m.procs.t.running[h])]
    ensures forall j :: j != i ==> Q(m.procs.t, BarOf(j)) == old(Q(m.procs.t, BarOf(j)))
  {
    m.BarrierWait(h, i, 0);
  }

  /** Each of the two waits alone, although the barrier they asked for was for two. */
  method NeverMet() returns (m: Machine, a: Pid, b: Pid)
    ensures m.Fit() && Q(m.procs.t, BarOf(0)) == [a] && Q(m.procs.t, BarOf(1)) == [b]
  {
    m, a, b := TwoBarriers();
    ArriveFirst(m, 0, 0);
    ArriveFirst(m, 1, 1);
  }

  /** A mutex nobody has initialised: the second process to acquire it follows a list head that was never set up. */
  method QueueOnNothing() returns (stopped: bool)
    ensures stopped
  {
    var m, a, b := Boot();
    TakeFree(m, 0);
    m.AcquireTurn(1, 0, 0);
    stopped := m.halted;
  }

  /** Two processes hold one mutex: a takes it before anybody has initialised it; b initialises it and takes it. */
  method StolenByInit() returns (m: Machine, a: Pid, b: Pid)
    ensures m.Fit() && a != b && m.holders[0] == {a, b}
  {
    m, a, b := Boot();
    TakeFree(m, 0);
    InitFirst(m, 1);
    TakeFree(m, 1);
  }

  /** b has initialised mutex 0, and a holds it. */
  method Held() returns (m: Machine, a: Pid, b: Pid)
    ensures fresh(m) && fresh(m.procs) && m.Fit() && m.procs.t.pcbs.Keys == {0, 1, a, b}
    ensures a != b && b >= NR_CPUS && m.procs.t.running == [a, b]
    ensures m.mutexes[0].linked && m.mutexRefs[0].users == {b} && m.holders[0] == {a}
    ensures forall i :: 0 <= i < LOCK_NUM ==> m.condRefs[i].users == {}
  {
    m, a, b := Boot();
    InitFirst(m, 1);
    TakeFree(m, 0);
  }

  /** A new process takes mutex 0, which is free. */
  method NewTaker(m: Machine, h: Hart) returns (c: Pid)
    requires m.Fit() && h < NR_CPUS && |m.procs.t.pcbs| < NR_CPUS + NUM_MAX_TASK && !m.mutexes[0].acquired
    modifies m`mutexes, m`holders, m`pending, m`halted, m.procs
    ensures m.Fit() && c !in old(m.procs.t).pcbs && m.holders[0] == old(m.holders[0]) + {c}
  {
    c := RunNew(m.procs, h);
    TakeFree(m, h);
  }

  /** The same by a condition wait: a takes the mutex, b waits with it, c takes it. */
  method StolenByWait() returns (m: Machine, a: Pid, c: Pid)
    ensures m.Fit() && a != c && m.holders[0] == {a, c}
  {
    var b;
    m, a, b := Held();
    WaitFirst(m, 1);
    c := NewTaker(m, 1);
  }

  /** The same by an exit: b initialises the mutex, a takes it, b leaves as its last user, c takes it. */
  method StolenByExit() returns (m: Machine, a: Pid, c: Pid)
    ensures m.Fit() && a != c && m.holders[0] == {a, c}
  {
    var b;
    m, a, b := Held();
    LeaveLast(m, 1);
    assert m.procs.t.pcbs.Keys == {0, 1, a};
    c := NewTaker(m, 1);
  }
}
