/** Where every process is: running on one hart, or on exactly one list. */
module Placement {
  import opened Common

  datatype Status = READY | RUNNING | BLOCKED

  const NUM_MAX_TASK := 32

  /** The lists a process can be linked on. Lost stands for a list whose head was set up anew while processes were
      linked on it: nothing finds them any more. */
  datatype Queue = Ready | Sleep | ExitOf(pid: Pid) | LockOf(lock: nat) | CondOf(cond: nat)
    | SemOf(sem: nat) | BarOf(bar: nat) | Lost

  /** A live process; `container` is the list its node is linked on. */
  datatype Pcb = Pcb(status: Status, container: Option<Queue>, affinity: set<Hart>, wakeup: nat)

  datatype Table = Table(pcbs: map<Pid, Pcb>, queues: map<Queue, seq<Pid>>, running: seq<Pid>, nextPid: Pid)

  function Q(t: Table, q: Queue): seq<Pid> { if q in t.queues then t.queues[q] else [] }

  ghost predicate LinkedOn(t: Table, q: Queue, p: Pid) { p in t.pcbs && t.pcbs[p].container == Some(q) }

  ghost predicate QueueOk(t: Table, q: Queue) {
    Distinct(Q(t, q)) && forall p :: p in Q(t, q) ==> LinkedOn(t, q, p)
  }

  /** p is what hart h runs; a hart in the middle of a switch runs nothing. */
  ghost predicate OnHart(t: Table, gap: Option<Hart>, h: Hart, p: Pid) {
    h < |t.running| && gap != Some(h) && t.running[h] == p
  }

  /** A linked process is on the list it says, BLOCKED unless that list is the ready queue; an unlinked one
      is RUNNING on some hart. The kernel's own processes are never blocked. Nobody waits for the dead. */
  ghost predicate PcbOk(t: Table, gap: Option<Hart>, p: Pid) {
    && (p in t.pcbs ==>
          && p < t.nextPid
          && match t.pcbs[p].container
             case Some(q) =>
               p in Q(t, q) && if q == Ready then t.pcbs[p].status != RUNNING else t.pcbs[p].status == BLOCKED
             case None => t.pcbs[p].status == RUNNING && exists h :: OnHart(t, gap, h, p))
    && (p !in t.pcbs ==> Q(t, ExitOf(p)) == [])
    && (p < NR_CPUS ==> p in t.pcbs && t.pcbs[p].affinity == {p} && t.pcbs[p].container in {None, Some(Ready)})
  }

  ghost predicate HartOk(t: Table, gap: Option<Hart>, h: Hart) {
    forall p: Pid :: OnHart(t, gap, h, p) ==>
      && p in t.pcbs && t.pcbs[p].container == None && (p < NR_CPUS ==> p == h)
      && forall g: Hart :: OnHart(t, gap, g, p) ==> g == h
  }

  /** Every process is in exactly one place. */
  ghost predicate Placed(t: Table, gap: Option<Hart>) {
    && |t.running| == NR_CPUS && NR_CPUS <= t.nextPid
    && (forall q :: QueueOk(t, q))
    && (forall p :: PcbOk(t, gap, p))
    && (forall h :: HartOk(t, gap, h))
  }

  // ---- elementary steps ----

  /** list_append of an unlinked process, with a new status. */
  function Join(t: Table, q: Queue, p: Pid, s: Status): Table
    requires p in t.pcbs
  {
    t.(pcbs := t.pcbs[p := t.pcbs[p].(status := s, container := Some(q))], queues := t.queues[q := Q(t, q) + [p]])
  }

  /** list_delete of the i-th process of q. */
  function Drop(t: Table, q: Queue, i: nat, s: Status): Table
    requires i < |Q(t, q)| && Q(t, q)[i] in t.pcbs
  {
    var p := Q(t, q)[i];
    t.(pcbs := t.pcbs[p := t.pcbs[p].(status := s, container := None)], queues := t.queues[q := Without(Q(t, q), i)])
  }

  /** Deleted from one list and appended to the ready queue. */
  function Transfer(t: Table, q: Queue, i: nat, s: Status): Table
    requires i < |Q(t, q)| && Q(t, q)[i] in t.pcbs
  {
    Join(Drop(t, q, i, s), Ready, Q(t, q)[i], s)
  }

  /** Hart h starts the i-th ready process. */
  function Switch(t: Table, h: Hart, i: nat): Table
    requires i < |Q(t, Ready)| && Q(t, Ready)[i] in t.pcbs && h < |t.running|
  {
    Drop(t, Ready, i, RUNNING).(running := t.running[h := Q(t, Ready)[i]])
  }

  /** A new process enters the ready queue. */
  function Spawn(t: Table, affinity: set<Hart>): Table {
    t.(pcbs := t.pcbs[t.nextPid := Pcb(READY, Some(Ready), affinity, 0)],
       queues := t.queues[Ready := Q(t, Ready) + [t.nextPid]], nextPid := t.nextPid + 1)
  }

  /** list_init of a list in use: its members are lost. */
  function Lose(t: Table, q: Queue): Table
    requires q != Lost
  {
    var gone := Q(t, q);
    t.(pcbs := map p | p in t.pcbs :: if p in gone then t.pcbs[p].(container := Some(Lost)) else t.pcbs[p],
       queues := t.queues[Lost := Q(t, Lost) + gone][q := []])
  }

  /** The process leaves the table. */
  function Leave(t: Table, p: Pid): Table { t.(pcbs := t.pcbs - {p}) }

  lemma JoinPlaced(t: Table, h: Hart, q: Queue, s: Status)
    requires Placed(t, None) && h < NR_CPUS
    requires if q == Ready then s == READY else s == BLOCKED && t.running[h] >= NR_CPUS
    requires q.ExitOf? ==> q.pid in t.pcbs
    ensures t.running[h] in t.pcbs && Placed(Join(t, q, t.running[h], s), Some(h))
  {
    var p := t.running[h];
    assert HartOk(t, None, h) && OnHart(t, None, h, p);
    var r := Join(t, q, p, s);
    assert QueueOk(t, q) && p !in Q(t, q);
    forall x ensures QueueOk(r, x) { assert QueueOk(t, x); }
    forall x ensures PcbOk(r, Some(h), x) {
      assert PcbOk(t, None, x);
      if x in t.pcbs && x != p && t.pcbs[x].container == None {
        var g :| OnHart(t, None, g, x);
        assert OnHart(r, Some(h), g, x);
      }
    }
    forall g ensures HartOk(r, Some(h), g) {
      assert HartOk(t, None, g);
      assert forall x, y :: OnHart(r, Some(h), y, x) ==> OnHart(t, None, y, x);
    }
  }

  lemma TransferPlaced(t: Table, gap: Option<Hart>, q: Queue, i: nat, s: Status)
    requires Placed(t, gap) && q != Ready && i < |Q(t, q)| && s != RUNNING
    ensures Q(t, q)[i] in t.pcbs && Placed(Transfer(t, q, i, s), gap)
    ensures var r := Transfer(t, q, i, s);
      && Q(r, q) == Without(Q(t, q), i) && Q(r, Ready) == Q(t, Ready) + [Q(t, q)[i]]
      && SameBut(t, r, {q, Ready})
  {
    var p := Q(t, q)[i];
    assert QueueOk(t, q) && QueueOk(t, Ready) && LinkedOn(t, q, p) && p !in Q(t, Ready);
    WithoutMembers(Q(t, q), i);
    var r := Transfer(t, q, i, s);
    forall x ensures QueueOk(r, x) { assert QueueOk(t, x); }
    forall x ensures PcbOk(r, gap, x) {
      assert PcbOk(t, gap, x);
      if x in t.pcbs && t.pcbs[x].container == None {
        var g :| OnHart(t, gap, g, x);
        assert OnHart(r, gap, g, x);
      }
    }
    forall g ensures HartOk(r, gap, g) {
      assert HartOk(t, gap, g);
      assert forall x, y :: OnHart(r, gap, y, x) ==> OnHart(t, gap, y, x);
    }
  }

  lemma SwitchPlaced(t: Table, h: Hart, i: nat)
    requires Placed(t, Some(h)) && h < NR_CPUS && i < |Q(t, Ready)|
    requires Q(t, Ready)[i] in t.pcbs && h in t.pcbs[Q(t, Ready)[i]].affinity
    ensures Placed(Switch(t, h, i), None) && SameBut(t, Switch(t, h, i).(running := t.running), {Ready})
  {
    var p := Q(t, Ready)[i];
    assert QueueOk(t, Ready) && LinkedOn(t, Ready, p) && PcbOk(t, Some(h), p);
    WithoutMembers(Q(t, Ready), i);
    var r := Switch(t, h, i);
    forall x ensures QueueOk(r, x) { assert QueueOk(t, x); }
    forall y ensures !OnHart(t, Some(h), y, p) { assert HartOk(t, Some(h), y); }
    assert OnHart(r, None, h, p);
    forall x ensures PcbOk(r, None, x) {
      assert PcbOk(t, Some(h), x);
      if x in t.pcbs && t.pcbs[x].container == None {
        var g :| OnHart(t, Some(h), g, x);
        assert OnHart(r, None, g, x);
      }
    }
    forall g ensures HartOk(r, None, g) {
      assert HartOk(t, Some(h), g);
      assert forall x, y :: OnHart(r, None, y, x) ==> OnHart(t, Some(h), y, x) || (y == h && x == p);
    }
  }

  /** Whatever hart is switching, its own kernel process is ready: the scheduler always finds a process. */
  lemma AlwaysRunnable(t: Table, h: Hart)
    requires Placed(t, Some(h)) && h < NR_CPUS
    ensures exists i :: 0 <= i < |Q(t, Ready)| && Q(t, Ready)[i] in t.pcbs && h in t.pcbs[Q(t, Ready)[i]].affinity
  {
    assert PcbOk(t, Some(h), h);
    forall g ensures !OnHart(t, Some(h), g, h) { assert HartOk(t, Some(h), g); }
    var i :| 0 <= i < |Q(t, Ready)| && Q(t, Ready)[i] == h;
  }

  lemma SpawnPlaced(t: Table, affinity: set<Hart>)
    requires Placed(t, None)
    ensures Placed(Spawn(t, affinity), None)
  {
    var r := Spawn(t, affinity);
    var p := t.nextPid;
    assert PcbOk(t, None, p) && QueueOk(t, Ready);
    assert p !in t.pcbs && p !in Q(t, Ready);
    forall x ensures QueueOk(r, x) { assert QueueOk(t, x); }
    forall x ensures PcbOk(r, None, x) {
      assert PcbOk(t, None, x);
      if x in t.pcbs && t.pcbs[x].container == None {
        var g :| OnHart(t, None, g, x);
        assert OnHart(r, None, g, x);
      }
    }
    forall g ensures HartOk(r, None, g) {
      assert HartOk(t, None, g);
      assert forall x, y :: OnHart(r, None, y, x) ==> OnHart(t, None, y, x);
    }
  }

  lemma LosePlaced(t: Table, q: Queue)
    requires Placed(t, None) && q != Ready && q != Lost
    ensures Placed(Lose(t, q), None) && SameBut(t, Lose(t, q), {q, Lost})
    ensures Q(Lose(t, q), q) == [] && Q(Lose(t, q), Lost) == Q(t, Lost) + Q(t, q)
  {
    var r := Lose(t, q);
    assert QueueOk(t, q) && QueueOk(t, Lost);
    forall x | x in Q(t, Lost) ensures x !in Q(t, q) { assert LinkedOn(t, Lost, x); }
    DistinctConcat(Q(t, Lost), Q(t, q));
    forall x ensures QueueOk(r, x) { assert QueueOk(t, x); }
    forall x ensures PcbOk(r, None, x) {
      assert PcbOk(t, None, x);
      if x in t.pcbs && t.pcbs[x].container == None {
        var g :| OnHart(t, None, g, x);
        assert OnHart(r, None, g, x);
      }
    }
    forall g ensures HartOk(r, None, g) {
      assert HartOk(t, None, g);
      assert forall x, y :: OnHart(r, None, y, x) ==> OnHart(t, None, y, x);
    }
  }

  lemma LeavePlaced(t: Table, h: Hart)
    requires Placed(t, None) && h < NR_CPUS && t.running[h] >= NR_CPUS && Q(t, ExitOf(t.running[h])) == []
    ensures t.running[h] in t.pcbs && Placed(Leave(t, t.running[h]), Some(h))
  {
    var p := t.running[h];
    assert HartOk(t, None, h) && OnHart(t, None, h, p);
    var r := Leave(t, p);
    forall x ensures QueueOk(r, x) { assert QueueOk(t, x); }
    forall x ensures PcbOk(r, Some(h), x) {
      assert PcbOk(t, None, x);
      if x in r.pcbs && t.pcbs[x].container == None {
        var g :| OnHart(t, None, g, x);
        assert OnHart(r, Some(h), g, x);
      }
    }
    forall g ensures HartOk(r, Some(h), g) {
      assert HartOk(t, None, g);
      assert forall x, y :: OnHart(r, Some(h), y, x) ==> OnHart(t, None, y, x);
    }
  }

  /** Nothing but the named queues and their members' records differs. */
  ghost predicate SameBut(t: Table, r: Table, qs: set<Queue>) {
    && r.running == t.running && r.nextPid == t.nextPid && r.pcbs.Keys == t.pcbs.Keys
    && (forall q :: q !in qs ==> Q(r, q) == Q(t, q))
    && (forall p :: p in t.pcbs ==> r.pcbs[p].affinity == t.pcbs[p].affinity && r.pcbs[p].wakeup == t.pcbs[p].wakeup)
  }

  /** The sleepers whose time has come, and those whose time has not. */
  function Due(pcbs: map<Pid, Pcb>, s: seq<Pid>, now: nat, due: bool): seq<Pid> {
    if s == [] then [] else
      var last := s[|s| - 1];
      Due(pcbs, s[..|s| - 1], now, due) + if (last in pcbs && now >= pcbs[last].wakeup) == due then [last] else []
  }

  lemma DueStep(pcbs: map<Pid, Pcb>, s: seq<Pid>, i: nat, now: nat, due: bool)
    requires i < |s|
    ensures Due(pcbs, s[..i + 1], now, due) ==
              Due(pcbs, s[..i], now, due) + if (s[i] in pcbs && now >= pcbs[s[i]].wakeup) == due then [s[i]] else []
  {
    assert s[..i + 1][..i] == s[..i];
  }

  /** The table when the first i sleepers have been looked at: the due ones follow the ready queue, the
      others stay, and no status has changed. */
  ghost predicate Roused(t: Table, r: Table, i: nat, now: nat) {
    var s := Q(t, Sleep);
    && i <= |s| && SameBut(t, r, {Sleep, Ready})
    && Q(r, Sleep) == Due(t.pcbs, s[..i], now, false) + s[i..]
    && Q(r, Ready) == Q(t, Ready) + Due(t.pcbs, s[..i], now, true)
    && forall p :: p in t.pcbs ==> r.pcbs[p].status == t.pcbs[p].status
  }

  function StillAsleep(t: Table, i: nat, now: nat): nat
    requires i <= |Q(t, Sleep)|
  {
    |Due(t.pcbs, Q(t, Sleep)[..i], now, false)|
  }

  /** Where the search starts and where it ends. */
  lemma RouseEnds(t: Table, r: Table, i: nat, now: nat)
    requires i <= |Q(t, Sleep)|
    ensures i == 0 && r == t ==> Roused(t, r, 0, now) && StillAsleep(t, 0, now) == 0
    ensures Roused(t, r, i, now) && StillAsleep(t, i, now) >= |Q(r, Sleep)| ==> i == |Q(t, Sleep)|
  {
  }

  /** The next sleeper to look at. */
  lemma RouseNext(t: Table, r: Table, gap: Option<Hart>, i: nat, now: nat)
    requires Placed(r, gap) && Roused(t, r, i, now) && StillAsleep(t, i, now) < |Q(r, Sleep)|
    ensures i < |Q(t, Sleep)| && Q(r, Sleep)[StillAsleep(t, i, now)] == Q(t, Sleep)[i]
    ensures var p := Q(t, Sleep)[i];
      p in t.pcbs && p in r.pcbs && r.pcbs[p].wakeup == t.pcbs[p].wakeup && r.pcbs[p].status == BLOCKED
  {
    var p := Q(r, Sleep)[StillAsleep(t, i, now)];
    assert QueueOk(r, Sleep) && LinkedOn(r, Sleep, p) && PcbOk(r, gap, p);
  }

  lemma RouseDue(t: Table, r: Table, gap: Option<Hart>, i: nat, now: nat)
    requires Placed(r, gap) && Roused(t, r, i, now) && i < |Q(t, Sleep)| && Q(t, Sleep)[i] in t.pcbs
    requires now >= t.pcbs[Q(t, Sleep)[i]].wakeup
    ensures var j := StillAsleep(t, i, now);
      && StillAsleep(t, i + 1, now) == j < |Q(r, Sleep)| && Q(r, Sleep)[j] == Q(t, Sleep)[i]
      && var r' := Transfer(r, Sleep, j, r.pcbs[Q(r, Sleep)[j]].status);
        (r.pcbs[Q(r, Sleep)[j]].status == BLOCKED ==> Placed(r', gap) && Roused(t, r', i + 1, now))
  {
    var s := Q(t, Sleep);
    var j := StillAsleep(t, i, now);
    DueStep(t.pcbs, s, i, now, false);
    DueStep(t.pcbs, s, i, now, true);
    if r.pcbs[s[i]].status == BLOCKED {
      TransferPlaced(r, gap, Sleep, j, BLOCKED);
      assert Without(Q(r, Sleep), j) == Due(t.pcbs, s[..i], now, false) + s[i + 1..];
    }
  }

  lemma RouseKeep(t: Table, r: Table, i: nat, now: nat)
    requires Roused(t, r, i, now) && i < |Q(t, Sleep)| && Q(t, Sleep)[i] in t.pcbs
    requires now < t.pcbs[Q(t, Sleep)[i]].wakeup
    ensures Roused(t, r, i + 1, now) && StillAsleep(t, i + 1, now) == StillAsleep(t, i, now) + 1
  {
    var s := Q(t, Sleep);
    DueStep(t.pcbs, s, i, now, false);
    DueStep(t.pcbs, s, i, now, true);
    assert s[i..] == [s[i]] + s[i + 1..];
  }

  /** Those gone from q, its first ones, are READY and follow the ready queue in order; nothing else has changed. */
  ghost predicate Woken(t: Table, r: Table, q: Queue, gone: seq<Pid>) {
    && SameBut(t, r, {q, Ready}) && Q(t, q) == gone + Q(r, q) && Q(r, Ready) == Q(t, Ready) + gone
    && forall p :: p in t.pcbs ==> if p in gone then r.pcbs[p].status == READY else r.pcbs[p] == t.pcbs[p]
  }

  /** A ready queue with one process taken out of it. */
  ghost predicate TookFrom(r: seq<Pid>, p: Pid, ready: seq<Pid>) {
    exists i :: 0 <= i < |ready| && ready[i] == p && r == Without(ready, i)
  }

  lemma TookMembers(r: seq<Pid>, p: Pid, ready: seq<Pid>)
    requires TookFrom(r, p, ready)
    ensures forall x :: x in ready ==> x in r || x == p
  {
    var i :| 0 <= i < |ready| && ready[i] == p && r == Without(ready, i);
    forall x | x in ready ensures x in r || x == p {
      var j :| 0 <= j < |ready| && ready[j] == x;
      assert j != i ==> r[if j < i then j else j - 1] == x;
    }
  }

  datatype Act =
    | Exec(affinity: set<Hart>)
    | Yield
    | DoSleepFor(time: nat)
    | WaitFor(target: Pid)
    | BlockOn(queue: Queue)
    | Wake(queue: Queue)
    | WakeAll(queue: Queue)
    | Exit

  datatype Event = Event(hart: Hart, now: nat, act: Act)

  /** In a placed table no process is in two places: on a hart and a list, on two lists, twice on one, or on
      two harts. */
  lemma OnePlace(t: Table, p: Pid)
    requires Placed(t, None) && p in t.pcbs
    ensures (exists h :: OnHart(t, None, h, p)) <==> t.pcbs[p].container == None
    ensures forall g, h :: OnHart(t, None, g, p) && OnHart(t, None, h, p) ==> g == h
    ensures forall h, q :: OnHart(t, None, h, p) ==> p !in Q(t, q)
    ensures forall q, r :: p in Q(t, q) && p in Q(t, r) ==> q == r
    ensures (exists h :: OnHart(t, None, h, p)) || (exists q :: p in Q(t, q))
  {
    assert PcbOk(t, None, p);
    forall h | OnHart(t, None, h, p) ensures HartOk(t, None, h) { }
    forall q | p in Q(t, q) ensures LinkedOn(t, q, p) { assert QueueOk(t, q); }
  }

  /** What a hart runs is alive and on no list. */
  lemma RunningUnqueued(t: Table, h: Hart, q: Queue)
    requires Placed(t, None) && h < NR_CPUS
    ensures t.running[h] in t.pcbs && t.running[h] !in Q(t, q)
  {
    assert HartOk(t, None, h) && OnHart(t, None, h, t.running[h]) && QueueOk(t, q);
  }

  /** Two harts run two processes. */
  lemma OneHart(t: Table, g: Hart, h: Hart)
    requires Placed(t, None) && g < NR_CPUS && h < NR_CPUS && g != h
    ensures t.running[g] != t.running[h]
  {
    assert HartOk(t, None, g) && OnHart(t, None, g, t.running[g]) && OnHart(t, None, h, t.running[h]);
  }

  function SetTimer(t: Table, p: Pid, wakeup: nat): Table
    requires p in t.pcbs
  {
    t.(pcbs := t.pcbs[p := t.pcbs[p].(wakeup := wakeup)])
  }

  lemma TimerPlaced(t: Table, p: Pid, wakeup: nat)
    requires Placed(t, None) && p in t.pcbs
    ensures Placed(SetTimer(t, p, wakeup), None)
  {
    var r := SetTimer(t, p, wakeup);
    forall x ensures QueueOk(r, x) { assert QueueOk(t, x); }
    assert forall x, y :: OnHart(r, None, y, x) <==> OnHart(t, None, y, x);
    forall x ensures PcbOk(r, None, x) { assert PcbOk(t, None, x); }
    forall g ensures HartOk(r, None, g) { assert HartOk(t, None, g); }
  }

  /** Nobody is woken early and nobody is left asleep late. */
  lemma {:induction false} DueMembers(pcbs: map<Pid, Pcb>, s: seq<Pid>, now: nat, due: bool, p: Pid)
    ensures p in Due(pcbs, s, now, due) <==> p in s && ((p in pcbs && now >= pcbs[p].wakeup) == due)
  {
    if s != [] {
      DueMembers(pcbs, s[..|s| - 1], now, due, p);
      assert s == s[..|s| - 1] + [s[|s| - 1]];
    }
  }

  predicate CanGoOn(t: Table, h: Hart)
    requires h < |t.running|
  {
    t.running[h] in t.pcbs && t.pcbs[t.running[h]].status == RUNNING
  }

  /** The ready queue hart h chooses from: the old one, the sleepers just woken, and its own process if it
      can go on. */
  function ReadyFor(t: Table, h: Hart, now: nat): seq<Pid>
    requires h < |t.running|
  {
    Q(t, Ready) + Due(t.pcbs, Q(t, Sleep), now, true) +
    if CanGoOn(t, h) then [t.running[h]] else []
  }

  lemma WokenMore(t: Table, mid: Table, r: Table, q: Queue, all: seq<Pid>, k: nat)
    requires k < |all| && Q(t, q) == all && Woken(t, mid, q, all[..k]) && Q(mid, q) == all[k..]
    requires Woken(mid, r, q, all[k..][..1])
    ensures Woken(t, r, q, all[..k + 1]) && Q(r, q) == all[k + 1..]
  {
    assert all[..k + 1] == all[..k] + all[k..][..1];
  }

  lemma {:induction false} DueSame(pcbs: map<Pid, Pcb>, pcbs': map<Pid, Pcb>, s: seq<Pid>, now: nat, due: bool)
    requires forall p :: p in s ==> p in pcbs && p in pcbs' && pcbs[p].wakeup == pcbs'[p].wakeup
    ensures Due(pcbs, s, now, due) == Due(pcbs', s, now, due)
  {
    if s != [] { DueSame(pcbs, pcbs', s[..|s| - 1], now, due); }
  }

  /** What a step of hart h does to the status of a process that neither runs there before nor after. */
  ghost predicate StatusKept(t: Table, r: Table, h: Hart, p: Pid)
    requires h < |t.running| && h < |r.running|
  {
    p in t.pcbs && p in r.pcbs && p != t.running[h] && p != r.running[h] ==> r.pcbs[p].status == t.pcbs[p].status
  }

  /** do_scheduler on hart h: the due sleepers follow the ready queue, then its own process if it can go on; one
      process allowed on the hart is taken out of that queue and runs. Nothing else changes. */
  ghost predicate Scheduled(t: Table, h: Hart, now: nat, r: Table) {
    && h < |t.running| && |r.running| == |t.running| && r.running == t.running[h := r.running[h]]
    && r.pcbs.Keys == t.pcbs.Keys && r.nextPid == t.nextPid
    && r.running[h] in r.pcbs && h in r.pcbs[r.running[h]].affinity
    && TookFrom(Q(r, Ready), r.running[h], ReadyFor(t, h, now))
    && Q(r, Sleep) == Due(t.pcbs, Q(t, Sleep), now, false)
    && (forall q :: q != Ready && q != Sleep ==> Q(r, q) == Q(t, q))
    && (forall p :: p in t.pcbs ==> r.pcbs[p].affinity == t.pcbs[p].affinity && r.pcbs[p].wakeup == t.pcbs[p].wakeup)
    && (forall p :: StatusKept(t, r, h, p))
  }

  /** The process on h has ended: those waiting for it become ready, and another process runs. */
  ghost predicate Ended(t: Table, h: Hart, now: nat, r: Table) {
    && h < |t.running| && Departed(t, h, now, r, Q(t, ExitOf(t.running[h])))
    && r.pcbs.Keys == t.pcbs.Keys - {t.running[h]} && Q(r, ExitOf(t.running[h])) == []
    && forall q :: q !in {Ready, Sleep, ExitOf(t.running[h])} ==> Q(r, q) == Q(t, q)
  }

  /** The process on h has left it, some others have become ready, in order, and one of those ready runs now. */
  ghost predicate Departed(t: Table, h: Hart, now: nat, r: Table, woken: seq<Pid>) {
    && h < |t.running| && |r.running| == |t.running| && r.running == t.running[h := r.running[h]]
    && r.running[h] in r.pcbs && h in r.pcbs[r.running[h]].affinity
    && TookFrom(Q(r, Ready), r.running[h], Q(t, Ready) + woken + Due(t.pcbs, Q(t, Sleep), now, true))
    && Q(r, Sleep) == Due(t.pcbs, Q(t, Sleep), now, false)
    && AllReady(r, woken, Some(r.running[h]))
    && forall p :: p !in woken ==> StatusKept(t, r, h, p)
  }

  /** All of them are READY, but for one that may run. */
  ghost predicate AllReady(r: Table, woken: seq<Pid>, but: Option<Pid>) {
    forall p :: p in woken ==> p in r.pcbs && (but == Some(p) || r.pcbs[p].status == READY)
  }

  /** The process on h is gone, and those waiting for it are ready. */
  ghost predicate Retired(t: Table, h: Hart, r: Table)
    requires h < |t.running|
  {
    var p := t.running[h];
    && r.pcbs.Keys == t.pcbs.Keys - {p} && Parted(t, h, r, Q(t, ExitOf(p))) && Q(r, ExitOf(p)) == []
    && (forall q :: q !in {Ready, ExitOf(p)} ==> Q(r, q) == Q(t, q))
  }

  /** The process on h is about to leave it, and some others have become ready. */
  ghost predicate Parted(t: Table, h: Hart, r: Table, woken: seq<Pid>)
    requires h < |t.running|
  {
    && r.running == t.running && !CanGoOn(r, h) && t.running[h] !in woken && AllReady(r, woken, None)
    && Q(r, Ready) == Q(t, Ready) + woken && Q(r, Sleep) == Q(t, Sleep)
    && (forall x :: x in r.pcbs && x in t.pcbs ==> r.pcbs[x].wakeup == t.pcbs[x].wakeup)
    && (forall x :: x in Q(t, Sleep) ==> x in t.pcbs && x in r.pcbs)
    && (forall x :: x in r.pcbs && x in t.pcbs && x !in woken && x != t.running[h] ==>
          r.pcbs[x].status == t.pcbs[x].status)
  }

  lemma DepartedIs(t: Table, h: Hart, now: nat, mid: Table, r: Table, woken: seq<Pid>)
    requires h < |t.running| && Parted(t, h, mid, woken) && Scheduled(mid, h, now, r)
    ensures Departed(t, h, now, r, woken)
  {
    DueSame(t.pcbs, mid.pcbs, Q(t, Sleep), now, true);
    DueSame(t.pcbs, mid.pcbs, Q(t, Sleep), now, false);
    assert ReadyFor(mid, h, now) == Q(t, Ready) + woken + Due(t.pcbs, Q(t, Sleep), now, true);
    forall p | p in woken ensures p in r.pcbs && (p == r.running[h] || r.pcbs[p].status == READY) {
      assert StatusKept(mid, r, h, p);
    }
    forall p | p !in woken ensures StatusKept(t, r, h, p) { assert StatusKept(mid, r, h, p); }
  }

  /** What each kind of step does. */
  ghost predicate Acted(t: Table, e: Event, r: Table) {
    if e.hart >= NR_CPUS || |t.running| != NR_CPUS || t.running[e.hart] !in t.pcbs then r == t
    else
      var p := t.running[e.hart];
      match e.act
      case Exec(affinity) => r == if |t.pcbs| >= 34 then t else Spawn(t, affinity)
      case Yield => Scheduled(t, e.hart, e.now, r)
      case Wake(q) => if q != Ready && Q(t, q) != [] then Woken(t, r, q, Q(t, q)[..1]) else r == t
      case WakeAll(q) => if q != Ready then Woken(t, r, q, Q(t, q)) else r == t
      case DoSleepFor(time) =>
        if p < NR_CPUS then r == t
        else Scheduled(Join(SetTimer(t, p, e.now + time), Sleep, p, BLOCKED), e.hart, e.now, r)
      case WaitFor(target) =>
        if p < NR_CPUS || target !in t.pcbs then r == t
        else Scheduled(Join(t, ExitOf(target), p, BLOCKED), e.hart, e.now, r)
      case BlockOn(q) =>
        if p < NR_CPUS || q == Ready || q.ExitOf? then r == t
        else Scheduled(Join(t, q, p, BLOCKED), e.hart, e.now, r)
      case Exit => if p < NR_CPUS then r == t else Ended(t, e.hart, e.now, r)
  }

  lemma ScheduledStays(t: Table, h: Hart, now: nat, r: Table, p: Pid)
    requires Scheduled(t, h, now, r) && p in ReadyFor(t, h, now)
    ensures p in Q(r, Ready) || p in r.running
  {
    TookMembers(Q(r, Ready), r.running[h], ReadyFor(t, h, now));
    assert r.running[h] in r.running;
  }

  lemma DepartedStays(t: Table, h: Hart, now: nat, r: Table, woken: seq<Pid>, p: Pid)
    requires Departed(t, h, now, r, woken) && (p in Q(t, Ready) || p in woken)
    ensures p in Q(r, Ready) || p in r.running
  {
    TookMembers(Q(r, Ready), r.running[h], Q(t, Ready) + woken + Due(t.pcbs, Q(t, Sleep), now, true));
    assert r.running[h] in r.running;
  }

  /** Whoever is ready stays ready until it runs. */
  lemma ReadyStays(t: Table, e: Event, r: Table, p: Pid)
    requires Placed(t, None) && Acted(t, e, r) && p in Q(t, Ready)
    ensures p in Q(r, Ready) || p in r.running
  {
    if e.hart < NR_CPUS {
      var x := t.running[e.hart];
      RunningUnqueued(t, e.hart, Ready);
      match e.act
      case Yield => ScheduledStays(t, e.hart, e.now, r, p);
      case Exit => if x >= NR_CPUS { DepartedStays(t, e.hart, e.now, r, Q(t, ExitOf(x)), p); }
      case DoSleepFor(time) =>
        if x >= NR_CPUS {
          ScheduledStays(Join(SetTimer(t, x, e.now + time), Sleep, x, BLOCKED), e.hart, e.now, r, p);
        }
      case WaitFor(target) =>
        if x >= NR_CPUS && target in t.pcbs {
          ScheduledStays(Join(t, ExitOf(target), x, BLOCKED), e.hart, e.now, r, p);
        }
      case BlockOn(q) =>
        if x >= NR_CPUS && q != Ready && !q.ExitOf? {
          ScheduledStays(Join(t, q, x, BLOCKED), e.hart, e.now, r, p);
        }
      case _ =>
    }
  }

  class Processes {
    var t: Table

    /** Each hart runs its own kernel process. */
    constructor ()
      ensures Placed(t, None) && t.pcbs.Keys == {0, 1} && forall q :: Q(t, q) == []
    {
      t := Table(map[0 := Pcb(RUNNING, None, {0}, 0), 1 := Pcb(RUNNING, None, {1}, 0)], map[], [0, 1], NR_CPUS);
      new;
      forall p: Pid ensures PcbOk(t, None, p) {
        assert p < NR_CPUS ==> OnHart(t, None, p, p);
      }
    }

    /** Blocks the process running on h: it is on no list and not blocked yet, so neither complaint of the
        source can arise. */
    method DoBlock(h: Hart, q: Queue)
      requires Placed(t, None) && h < NR_CPUS && q != Ready && t.running[h] >= NR_CPUS
      requires q.ExitOf? ==> q.pid in t.pcbs
      modifies this
      ensures old(t).running[h] in old(t).pcbs && t == Join(old(t), q, old(t).running[h], BLOCKED)
      ensures Placed(t, Some(h))
    {
      var p := t.running[h];
      assert HartOk(t, None, h) && OnHart(t, None, h, p) && PcbOk(t, None, p);
      assert t.pcbs[p].status != BLOCKED && t.pcbs[p].container == None;
      JoinPlaced(t, h, q, BLOCKED);
      t := Join(t, q, p, BLOCKED);
    }

    /** Moves the first waiter of q to the ready queue; it is always a BLOCKED process. */
    method UnblockFirst(q: Queue, ghost gap: Option<Hart>)
      requires Placed(t, gap) && q != Ready && Q(t, q) != []
      modifies this
      ensures Placed(t, gap) && Woken(old(t), t, q, Q(old(t), q)[..1])
    {
      var p := Q(t, q)[0];
      assert QueueOk(t, q) && LinkedOn(t, q, p) && PcbOk(t, gap, p);
      assert t.pcbs[p].status == BLOCKED;
      TransferPlaced(t, gap, q, 0, READY);
      t := Transfer(t, q, 0, READY);
    }

    /** Moves every waiter of q to the ready queue, in order. */
    method UnblockList(q: Queue, ghost gap: Option<Hart>)
      requires Placed(t, gap) && q != Ready
      modifies this
      ensures Placed(t, gap) && Woken(old(t), t, q, Q(old(t), q)) && Q(t, q) == []
    {
      ghost var all := Q(t, q);
      ghost var k := 0;
      while Q(t, q) != []
        invariant 0 <= k <= |all| && Q(t, q) == all[k..] && Placed(t, gap)
        invariant Woken(old(t), t, q, all[..k])
        decreases |Q(t, q)|
      {
        ghost var mid := t;
        UnblockFirst(q, gap);
        WokenMore(old(t), mid, t, q, all, k);
        k := k + 1;
      }
      assert all[..k] == all;
    }

    /** Moves the sleepers whose time has come to the ready queue, keeping the order of both. */
    method CheckSleeping(now: nat, ghost gap: Option<Hart>)
      requires Placed(t, gap)
      modifies this
      ensures Placed(t, gap) && Roused(old(t), t, |Q(old(t), Sleep)|, now)
    {
      ghost var i := 0;
      var j := 0;
      RouseEnds(t, t, 0, now);
      while j < |Q(t, Sleep)|
        invariant i <= |Q(old(t), Sleep)| && Placed(t, gap) && Roused(old(t), t, i, now)
        invariant j == StillAsleep(old(t), i, now)
        decreases |Q(old(t), Sleep)| - i
      {
        j := RouseOne(j, now, old(t), i, gap);
        i := i + 1;
      }
      RouseEnds(old(t), t, i, now);
    }

    /** Looks at one sleeper, the j-th still in the queue. */
    method RouseOne(j: nat, now: nat, ghost start: Table, ghost i: nat, ghost gap: Option<Hart>) returns (next: nat)
      requires Placed(t, gap) && Roused(start, t, i, now) && j == StillAsleep(start, i, now) < |Q(t, Sleep)|
      modifies this
      ensures i < |Q(start, Sleep)|
      ensures Placed(t, gap) && Roused(start, t, i + 1, now) && next == StillAsleep(start, i + 1, now)
    {
      RouseNext(start, t, gap, i, now);
      var p := Q(t, Sleep)[j];
      if now >= t.pcbs[p].wakeup {
        RouseDue(start, t, gap, i, now);
        t := Transfer(t, Sleep, j, t.pcbs[p].status);
        next := j;
      } else {
        RouseKeep(start, t, i, now);
        next := j + 1;
      }
    }

    /** Wakes due sleepers, puts a process that can go on back in the queue, and switches hart h to some
        ready process allowed there. One always exists, so the halt for an empty choice cannot happen. */
    method DoScheduler(h: Hart, now: nat, ghost gap: Option<Hart>)
      requires h < NR_CPUS && Placed(t, gap) && gap in {None, Some(h)}
      requires gap == Some(h) ==> !CanGoOn(t, h)
      modifies this
      ensures Placed(t, None) && Scheduled(old(t), h, now, t)
    {
      CheckSleeping(now, gap);
      assert Q(old(t), Sleep)[..|Q(old(t), Sleep)|] == Q(old(t), Sleep);
      Requeue(h, gap);
      assert Q(t, Ready) == ReadyFor(old(t), h, now);
      Dispatch(h);
    }

    /** Runs some ready process that is allowed on the hart. */
    method Dispatch(h: Hart)
      requires h < NR_CPUS && Placed(t, Some(h))
      modifies this
      ensures Placed(t, None) && SameBut(old(t), t.(running := old(t).running), {Ready})
      ensures t.running == old(t).running[h := t.running[h]] && t.running[h] in t.pcbs
      ensures h in t.pcbs[t.running[h]].affinity && TookFrom(Q(t, Ready), t.running[h], Q(old(t), Ready))
      ensures forall p :: p in t.pcbs && p != t.running[h] ==> t.pcbs[p].status == old(t).pcbs[p].status
    {
      AlwaysRunnable(t, h);
      var i: nat :| i < |Q(t, Ready)| && Q(t, Ready)[i] in t.pcbs && h in t.pcbs[Q(t, Ready)[i]].affinity;
      SwitchPlaced(t, h, i);
      t := Switch(t, h, i);
    }

    /** A process that can go on joins the end of the ready queue. */
    method Requeue(h: Hart, ghost gap: Option<Hart>)
      requires h < NR_CPUS && Placed(t, gap) && gap in {None, Some(h)}
      requires gap == Some(h) ==> !CanGoOn(t, h)
      modifies this
      ensures Placed(t, Some(h)) && SameBut(old(t), t, {Ready})
      ensures Q(t, Ready) == Q(old(t), Ready) + if CanGoOn(old(t), h) then [old(t).running[h]] else []
      ensures forall p :: p in t.pcbs && p != t.running[h] ==> t.pcbs[p].status == old(t).pcbs[p].status
    {
      var p := t.running[h];
      if p in t.pcbs && t.pcbs[p].status == RUNNING {
        JoinPlaced(t, h, Ready, READY);
        t := Join(t, Ready, p, READY);
      } else {
        assert HartOk(t, gap, h) && PcbOk(t, gap, p);
        assert gap == None ==> OnHart(t, gap, h, p);
      }
    }

    /** One choice the scheduler of hart h can make: the i-th ready process. */
    method SwitchTo(h: Hart, i: nat)
      requires Placed(t, None) && h < NR_CPUS && i < |Q(t, Ready)|
      requires Q(t, Ready)[i] in t.pcbs && h in t.pcbs[Q(t, Ready)[i]].affinity
      modifies this
      ensures Placed(t, None) && t.pcbs.Keys == old(t).pcbs.Keys && t.running == old(t).running[h := Q(old(t), Ready)[i]]
      ensures forall q :: q != Ready ==> Q(t, q) == Q(old(t), q)
    {
      Requeue(h, None);
      assert Q(t, Ready)[i] == Q(old(t), Ready)[i];
      SwitchPlaced(t, h, i);
      ghost var mid := t;
      t := Switch(t, h, i);
      forall q | q != Ready ensures Q(t, q) == Q(old(t), q) { assert Q(t, q) == Q(mid, q); }
    }

    /** Blocks the process on h on a list and lets another one run. */
    method Park(h: Hart, q: Queue, now: nat)
      requires Placed(t, None) && h < NR_CPUS && t.running[h] >= NR_CPUS && q != Ready
      requires q.ExitOf? ==> q.pid in t.pcbs
      modifies this
      ensures Placed(t, None) && old(t).running[h] in old(t).pcbs
      ensures Scheduled(Join(old(t), q, old(t).running[h], BLOCKED), h, now, t)
    {
      DoBlock(h, q);
      DoScheduler(h, now, Some(h));
    }

    /** The scheduler as a process that can go on sees it. */
    method DoYield(h: Hart, now: nat)
      requires h < NR_CPUS && Placed(t, None)
      modifies this
      ensures Placed(t, None) && Scheduled(old(t), h, now, t)
    {
      DoScheduler(h, now, None);
    }

    /** Sleeps until now + time and lets another process run; unless the time is zero the caller is still
        asleep afterwards. */
    method DoSleep(h: Hart, time: nat, now: nat)
      requires Placed(t, None) && h < NR_CPUS && t.running[h] >= NR_CPUS
      modifies this
      ensures Placed(t, None) && old(t).running[h] in old(t).pcbs
      ensures var p := old(t).running[h];
        Scheduled(Join(SetTimer(old(t), p, now + time), Sleep, p, BLOCKED), h, now, t)
      ensures var p := old(t).running[h];
        p in t.pcbs && t.pcbs[p].wakeup == now + time && (time > 0 <==> p in Q(t, Sleep))
    {
      var p := t.running[h];
      assert HartOk(t, None, h) && OnHart(t, None, h, p);
      TimerPlaced(t, p, now + time);
      t := SetTimer(t, p, now + time);
      ghost var asleep := Join(t, Sleep, p, BLOCKED);
      Park(h, Sleep, now);
      DueMembers(asleep.pcbs, Q(asleep, Sleep), now, false, p);
    }

    /** Waits for a live process to exit; for any other pid returns at once. */
    method DoWaitpid(h: Hart, target: Pid, now: nat) returns (waited: bool)
      requires Placed(t, None) && h < NR_CPUS && t.running[h] >= NR_CPUS
      modifies this
      ensures Placed(t, None) && waited == (target in old(t).pcbs) && old(t).running[h] in old(t).pcbs
      ensures waited ==> Scheduled(Join(old(t), ExitOf(target), old(t).running[h], BLOCKED), h, now, t)
      ensures !waited ==> t == old(t)
    {
      RunningUnqueued(t, h, Ready);
      waited := target in t.pcbs;
      if waited {
        Park(h, ExitOf(target), now);
      }
    }

    /** Sets a list up anew, whoever is on it. */
    method Forget(q: Queue)
      requires Placed(t, None) && q != Ready && q != Lost
      modifies this
      ensures Placed(t, None) && SameBut(old(t), t, {q, Lost})
      ensures Q(t, q) == [] && Q(t, Lost) == Q(old(t), Lost) + Q(old(t), q)
    {
      LosePlaced(t, q);
      t := Lose(t, q);
    }

    /** Starts a process; fails exactly when the process table is full. */
    method DoExec(affinity: set<Hart>) returns (r: Option<Pid>)
      requires Placed(t, None)
      modifies this
      ensures Placed(t, None) && (r.None? <==> |old(t).pcbs| >= 34)
      ensures r.Some? ==> r.value == old(t).nextPid && r.value !in old(t).pcbs && t == Spawn(old(t), affinity)
      ensures r.Some? ==> t.pcbs[r.value].status == READY && Q(t, Ready) == Q(old(t), Ready) + [r.value]
      ensures r.None? ==> t == old(t)
    {
      if |t.pcbs| >= NR_CPUS + NUM_MAX_TASK {
        return None;
      }
      SpawnPlaced(t, affinity);
      assert PcbOk(t, None, t.nextPid);
      r := Some(t.nextPid);
      t := Spawn(t, affinity);
    }

    /** Makes everyone waiting for the process on h ready, and frees its record. */
    method Retire(h: Hart)
      requires Placed(t, None) && h < NR_CPUS && t.running[h] >= NR_CPUS
      modifies this
      ensures Placed(t, Some(h)) && Retired(old(t), h, t)
    {
      var p := t.running[h];
      ghost var waiters := Q(t, ExitOf(p));
      RunningUnqueued(t, h, ExitOf(p));
      RunningUnqueued(t, h, Sleep);
      assert QueueOk(t, ExitOf(p)) && QueueOk(t, Sleep);
      assert forall x :: x in waiters ==> LinkedOn(t, ExitOf(p), x) && x in t.pcbs;
      UnblockList(ExitOf(p), None);
      LeavePlaced(t, h);
      t := Leave(t, p);
    }

    /** The process on h ends: everyone waiting for it becomes ready, its record is freed, and the hart
        goes on with another process. */
    method DoExit(h: Hart, now: nat)
      requires Placed(t, None) && h < NR_CPUS && t.running[h] >= NR_CPUS
      modifies this
      ensures Placed(t, None) && Ended(old(t), h, now, t)
    {
      RunningUnqueued(t, h, Ready);
      Retire(h);
      ghost var mid := t;
      DoScheduler(h, now, Some(h));
      DepartedIs(old(t), h, now, mid, t, Q(old(t), ExitOf(old(t).running[h])));
    }

    /** Any step of any hart. */
    method Apply(e: Event)
      requires Placed(t, None)
      modifies this
      ensures Placed(t, None) && Acted(old(t), e, t)
    {
      if e.hart >= NR_CPUS {
        return;
      }
      RunningUnqueued(t, e.hart, Ready);
      match e.act
      case Exec(affinity) => var p := DoExec(affinity);
      case Yield => DoYield(e.hart, e.now);
      case Wake(q) =>
        if q != Ready && Q(t, q) != [] { UnblockFirst(q, None); }
      case WakeAll(q) =>
        if q != Ready { UnblockList(q, None); }
      case _ =>
        if t.running[e.hart] >= NR_CPUS { ApplyUser(e); }
    }

    /** The steps only user processes take. */
    method ApplyUser(e: Event)
      requires Placed(t, None) && e.hart < NR_CPUS && t.running[e.hart] >= NR_CPUS
      requires e.act.DoSleepFor? || e.act.WaitFor? || e.act.BlockOn? || e.act.Exit?
      modifies this
      ensures Placed(t, None) && Acted(old(t), e, t)
    {
      RunningUnqueued(t, e.hart, Ready);
      match e.act
      case DoSleepFor(time) => DoSleep(e.hart, time, e.now);
      case WaitFor(target) => var waited := DoWaitpid(e.hart, target, e.now);
      case BlockOn(q) =>
        if q != Ready && !q.ExitOf? { Park(e.hart, q, e.now); }
      case Exit => DoExit(e.hart, e.now);
      case _ =>
    }

    /** Over every run, whatever the harts do and whichever ready processes are picked, every step does what it
        should and each process is in exactly one place. */
    method Run(es: seq<Event>) returns (ghost seen: seq<Table>)
      requires Placed(t, None)
      modifies this
      ensures |seen| == |es| + 1 && seen[0] == old(t) && seen[|es|] == t
      ensures forall i :: 0 <= i <= |es| ==> Placed(seen[i], None)
      ensures forall i :: 0 <= i < |es| ==> Acted(seen[i], es[i], seen[i + 1])
    {
      seen := [t];
      for i := 0 to |es|
        invariant |seen| == i + 1 && seen[0] == old(t) && seen[i] == t
        invariant forall j :: 0 <= j <= i ==> Placed(seen[j], None)
        invariant forall j :: 0 <= j < i ==> Acted(seen[j], es[j], seen[j + 1])
      {
        Apply(es[i]);
        seen := seen + [t];
      }
    }
  }
}
