/** Mutexes, conditions, semaphores and barriers as values: what every call does to them, when the kernel halts, and
    what every step keeps. */
module SyncModel {
  import opened Common
  import opened Placement

  const LOCK_NUM := 16

  // ---- the locks ----

  /** Who has initialised a lock, and under which key. */
  datatype Ref = Ref(key: int, users: set<Pid>) {
    predicate Used() { users != {} }
  }

  /** `linked` says the head of the waiting list has ever been set up. */
  datatype Mutex = Mutex(linked: bool, acquired: bool, pid: int)
  datatype Bar = Bar(goal: int, current: int)

  /** What has happened to a semaphore and to a barrier since they were set up. */
  datatype SemLog = SemLog(init: int, ups: nat, downs: nat)
  datatype BarLog = BarLog(arrivals: nat, freed: int)

  /** At most one process is between a successful acquire and its release: the recorded holder. Only a held
      mutex has anybody queued on it. */
  ghost predicate MutexOk(waiting: seq<Pid>, m: Mutex, holders: set<Pid>) {
    if m.acquired then m.pid >= 0 && holders == {m.pid} else holders == {} && waiting == []
  }

  lemma AtMostOneHolder(waiting: seq<Pid>, m: Mutex, holders: set<Pid>)
    requires MutexOk(waiting, m, holders)
    ensures forall p, q :: p in holders && q in holders ==> p == q
    ensures waiting != [] ==> holders != {}
  {
  }

  /** A mutex with the processes between acquire and release, and those queued on it. */
  datatype Cell = Cell(m: Mutex, holders: set<Pid>, waiting: seq<Pid>) {
    ghost predicate Ok() { MutexOk(waiting, m, holders) }
  }

  /** mutex_acquire of a free mutex. */
  function Taken(c: Cell, p: Pid): Cell { Cell(c.m.(acquired := true, pid := p), c.holders + {p}, c.waiting) }

  /** mutex_release or mutex_destruct on behalf of p, whoever holds the mutex: p's own hold ends, if it had one. */
  function GivenUp(c: Cell, p: Pid): Cell { Cell(c.m.(acquired := false), c.holders - {p}, []) }

  /** mutex_init, whoever holds the mutex. */
  function SetUp(c: Cell): Cell { Cell(Mutex(true, false, -1), c.holders, []) }

  /** condition_wait and the destruction of a mutex release it without looking who holds it. That keeps the mutex
      sound exactly if it was free or held by the process on whose behalf it is done. */
  lemma GivenUpOkIff(c: Cell, p: Pid)
    requires c.Ok()
    ensures GivenUp(c, p).Ok() <==> !c.m.acquired || c.m.pid == p
  {
    if c.m.acquired && c.m.pid != p { assert c.m.pid in c.holders - {p}; }
  }

  /** Setting a mutex up keeps it sound exactly if it was free. */
  lemma SetUpOkIff(c: Cell)
    requires c.Ok()
    ensures SetUp(c).Ok() <==> !c.m.acquired
  {
    if c.m.acquired { assert c.m.pid in c.holders; }
  }

  /** Otherwise two processes come to hold it: one takes it, it is given up for another, a third takes it. */
  lemma StolenMutex(c: Cell, p: Pid, q: Pid, r: Pid)
    requires c.Ok() && !c.m.acquired && p != q && p != r
    ensures Taken(GivenUp(Taken(c, p), q), r).holders == {p, r}
    ensures Taken(SetUp(Taken(c, p)), r).holders == {p, r}
  {
  }

  /** The count is the balance of ups and downs, and the queue makes up what the count lacks. */
  ghost predicate SemOk(waiting: seq<Pid>, count: int, log: SemLog) {
    && count == log.init + log.ups - log.downs
    && |waiting| == Max(0, Min(log.init, 0) - count)
    && (log.init < 0 ==> count <= log.init)
  }

  ghost predicate BarOk(waiting: seq<Pid>, b: Bar, log: BarLog) {
    && b.current == |waiting| && (b.current < b.goal || b.current == 0)
    && log.arrivals == log.freed + b.current
  }

  /** With a non-negative start the queue is as long as the count is negative. */
  lemma QueueIsDebt(waiting: seq<Pid>, count: int, log: SemLog)
    requires SemOk(waiting, count, log) && log.init >= 0
    ensures |waiting| == Max(0, -count)
    ensures log.downs - |waiting| == Min(log.downs, log.init + log.ups)
  {
  }

  // ---- finding a lock by its key ----

  function WithKey(refs: seq<Ref>, key: int, i: nat): (k: nat)
    requires i <= |refs|
    ensures i <= k <= |refs| && (k < |refs| ==> refs[k].Used() && refs[k].key == key)
    ensures forall j :: i <= j < k ==> !(refs[j].Used() && refs[j].key == key)
    decreases |refs| - i
  {
    if i == |refs| || (refs[i].Used() && refs[i].key == key) then i else WithKey(refs, key, i + 1)
  }

  function FirstUnused(refs: seq<Ref>, i: nat): (k: nat)
    requires i <= |refs|
    ensures i <= k <= |refs| && (k < |refs| ==> !refs[k].Used())
    ensures forall j :: i <= j < k ==> refs[j].Used()
    decreases |refs| - i
  {
    if i == |refs| || !refs[i].Used() then i else FirstUnused(refs, i + 1)
  }

  predicate Known(refs: seq<Ref>, key: int) { WithKey(refs, key, 0) < |refs| }

  /** The lock in use under a key, or else the first one not in use, or the end. */
  function SlotFor(refs: seq<Ref>, key: int): (k: nat)
    ensures k <= |refs|
    ensures k < |refs| ==> (refs[k].Used() <==> Known(refs, key))
  {
    if Known(refs, key) then WithKey(refs, key, 0) else FirstUnused(refs, 0)
  }

  /** The references once p has asked for a key. */
  function Referred(refs: seq<Ref>, key: int, users: set<Pid>): seq<Ref> {
    var i := SlotFor(refs, key);
    if i < |refs| then refs[i := Ref(key, refs[i].users + users)] else refs
  }

  /** The same for a barrier, whose key is never stored. */
  function ReferredBar(refs: seq<Ref>, key: int, users: set<Pid>): seq<Ref> {
    var i := SlotFor(refs, key);
    if i < |refs| then refs[i := refs[i].(users := refs[i].users + users)] else refs
  }

  /** Whoever asks for a key in use is given the lock that was given for it before. */
  lemma SameKeySameLock(refs: seq<Ref>, key: int, users: set<Pid>)
    requires SlotFor(refs, key) < |refs| && users != {}
    ensures Known(Referred(refs, key, users), key)
    ensures SlotFor(Referred(refs, key, users), key) == SlotFor(refs, key)
  {
    var i, refs' := SlotFor(refs, key), Referred(refs, key, users);
    assert refs'[i].Used() && refs'[i].key == key;
    assert forall j :: 0 <= j < i ==> refs'[j] == refs[j];
  }

  /** The references once p has left. */
  function Left(refs: seq<Ref>, p: Pid): seq<Ref> {
    seq(|refs|, i requires 0 <= i < |refs| => refs[i].(users := refs[i].users - {p}))
  }

  predicate InUse(refs: seq<Ref>, i: nat) { i < |refs| && refs[i].Used() }

  /** p is the only user left. */
  predicate LastUser(refs: seq<Ref>, i: nat, p: Pid) { i < |refs| && refs[i].users == {p} }

  // ---- the state of all locks ----

  /** The locks, who is inside an acquire or due to enter it once woken, and, beside what the kernel keeps: the
      processes between acquire and release, the mutexes that were taken from a holder, and the logs. */
  datatype Books = Books(
    mutexRefs: seq<Ref>, mutexes: seq<Mutex>, condRefs: seq<Ref>, semRefs: seq<Ref>, counts: seq<int>,
    barRefs: seq<Ref>, bars: seq<Bar>, pending: map<Pid, nat>,
    holders: seq<set<Pid>>, stolen: set<nat>, semLogs: seq<SemLog>, barLogs: seq<BarLog>)
  {
    predicate Sized() {
      && |mutexRefs| == |mutexes| == |condRefs| == |semRefs| == |counts| == |barRefs| == |bars| == LOCK_NUM
      && |holders| == |semLogs| == |barLogs| == LOCK_NUM
    }
  }

  datatype Locks = Locks(b: Books, t: Table)

  datatype Call =
    | MutexInit(key: int)
    | Acquire(i: nat)
    | Unlock(i: nat)
    | CondInit(key: int)
    | CondDestroy(c: nat)
    | WaitOn(c: nat, i: nat)
    | Signal(c: nat)
    | Broadcast(c: nat)
    | SemInit(key: int, init: int)
    | SemDestroy(i: nat)
    | SemDown(i: nat)
    | SemUp(i: nat)
    | BarInit(key: int, goal: int)
    | BarDestroy(i: nat)
    | Arrive(i: nat)
    | Quit

  // ---- what a call does ----

  /** Mutex i is released or destroyed by the exit of p. */
  predicate FreedByExit(b: Books, p: Pid, i: nat)
    requires b.Sized() && i < LOCK_NUM
  {
    (b.mutexRefs[i].Used() && b.mutexes[i].acquired && b.mutexes[i].pid == p) || b.mutexRefs[i].users == {p}
  }

  /** The mutexes a call takes from a process that holds them and does not make the call. */
  function Steals(b: Books, p: Pid, c: Call): set<nat>
    requires b.Sized()
  {
    match c
    case MutexInit(key) =>
      var i := SlotFor(b.mutexRefs, key);
      if i < LOCK_NUM && !Known(b.mutexRefs, key) && b.mutexes[i].acquired then {i} else {}
    case WaitOn(d, i) =>
      if InUse(b.condRefs, d) && i < LOCK_NUM && b.mutexes[i].acquired && b.mutexes[i].pid != p then {i} else {}
    case Quit =>
      set i | 0 <= i < LOCK_NUM && b.mutexRefs[i].users == {p} && b.mutexes[i].acquired && b.mutexes[i].pid != p
    case _ => {}
  }

  function SetMutex(b: Books, i: nat, m: Mutex, holders: set<Pid>): Books
    requires b.Sized() && i < LOCK_NUM
  {
    b.(mutexes := b.mutexes[i := m], holders := b.holders[i := holders])
  }

  function Released(b: Books, i: nat, p: Pid): Books
    requires b.Sized() && i < LOCK_NUM
  {
    SetMutex(b, i, b.mutexes[i].(acquired := false), b.holders[i] - {p})
  }

  function Exited(b: Books, p: Pid): Books
    requires b.Sized()
  {
    b.(mutexRefs := Left(b.mutexRefs, p), condRefs := Left(b.condRefs, p), semRefs := Left(b.semRefs, p),
       barRefs := Left(b.barRefs, p),
       mutexes := seq(LOCK_NUM, i requires 0 <= i < LOCK_NUM =>
         if FreedByExit(b, p, i) then b.mutexes[i].(acquired := false) else b.mutexes[i]),
       holders := seq(LOCK_NUM, i requires 0 <= i < LOCK_NUM =>
         if FreedByExit(b, p, i) then b.holders[i] - {p} else b.holders[i]),
       counts := seq(LOCK_NUM, i requires 0 <= i < LOCK_NUM => if b.semRefs[i].users == {p} then 0 else b.counts[i]))
  }

  /** The books after a call of p that does not halt the kernel. */
  function BooksAfter(b: Books, p: Pid, c: Call): Books
    requires b.Sized()
  {
    var b := b.(stolen := b.stolen + Steals(b, p, c));
    match c
    case MutexInit(key) =>
      var i := SlotFor(b.mutexRefs, key);
      var b1 := b.(mutexRefs := Referred(b.mutexRefs, key, {p}));
      if i < LOCK_NUM && !Known(b.mutexRefs, key) then b1.(mutexes := b1.mutexes[i := Mutex(true, false, -1)]) else b1
    case Acquire(i) =>
      if i >= LOCK_NUM then b
      else if b.mutexes[i].acquired then b.(pending := b.pending[p := i])
      else SetMutex(b, i, b.mutexes[i].(acquired := true, pid := p), b.holders[i] + {p}).(pending := b.pending - {p})
    case Unlock(i) => if InUse(b.mutexRefs, i) && b.mutexes[i].pid == p then Released(b, i, p) else b
    case CondInit(key) => b.(condRefs := Referred(b.condRefs, key, {p}))
    case CondDestroy(d) => if InUse(b.condRefs, d) then b.(condRefs := b.condRefs[d := Ref(b.condRefs[d].key, {})]) else b
    case WaitOn(d, i) =>
      if InUse(b.condRefs, d) && i < LOCK_NUM then Released(b, i, p).(pending := b.pending[p := i]) else b
    case Signal(_) => b
    case Broadcast(_) => b
    case SemInit(key, init) =>
      var i := SlotFor(b.semRefs, key);
      if i >= LOCK_NUM then b
      else if Known(b.semRefs, key) then b.(semRefs := Referred(b.semRefs, key, {p}))
      else b.(semRefs := Referred(b.semRefs, key, {0, p}), counts := b.counts[i := init],
              semLogs := b.semLogs[i := SemLog(init, 0, 0)])
    case SemDestroy(i) =>
      if InUse(b.semRefs, i) then b.(semRefs := b.semRefs[i := Ref(-1, {})], counts := b.counts[i := 0]) else b
    case SemDown(i) =>
      if InUse(b.semRefs, i)
      then b.(counts := b.counts[i := b.counts[i] - 1],
              semLogs := b.semLogs[i := b.semLogs[i].(downs := b.semLogs[i].downs + 1)])
      else b
    case SemUp(i) =>
      if InUse(b.semRefs, i)
      then b.(counts := b.counts[i := b.counts[i] + 1],
              semLogs := b.semLogs[i := b.semLogs[i].(ups := b.semLogs[i].ups + 1)])
      else b
    case BarInit(key, goal) =>
      var i := SlotFor(b.barRefs, key);
      if i >= LOCK_NUM then b
      else if Known(b.barRefs, key) then b.(barRefs := ReferredBar(b.barRefs, key, {p}))
      else b.(barRefs := ReferredBar(b.barRefs, key, {p}), bars := b.bars[i := Bar(goal, 0)],
              barLogs := b.barLogs[i := BarLog(0, 0)])
    case BarDestroy(i) => if InUse(b.barRefs, i) then b.(barRefs := b.barRefs[i := Ref(b.barRefs[i].key, {})]) else b
    case Arrive(i) =>
      if !InUse(b.barRefs, i) then b
      else if b.bars[i].current + 1 < b.bars[i].goal
      then b.(bars := b.bars[i := b.bars[i].(current := b.bars[i].current + 1)],
              barLogs := b.barLogs[i := b.barLogs[i].(arrivals := b.barLogs[i].arrivals + 1)])
      else b.(bars := b.bars[i := b.bars[i].(current := 0)],
              barLogs := b.barLogs[i := BarLog(b.barLogs[i].arrivals + 1, b.barLogs[i].freed + b.bars[i].current + 1)])
    case Quit => Exited(b, p)
  }

  /** The lists that belong to locks. */
  predicate OfLocks(q: Queue) { q.LockOf? || q.CondOf? || q.SemOf? || q.BarOf? }

  /** The exit of p empties list q. */
  predicate Flushes(b: Books, p: Pid, q: Queue)
    requires b.Sized()
  {
    match q
    case LockOf(i) => i < LOCK_NUM && FreedByExit(b, p, i)
    case CondOf(i) => LastUser(b.condRefs, i, p)
    case SemOf(i) => LastUser(b.semRefs, i, p)
    case BarOf(i) => LastUser(b.barRefs, i, p)
    case _ => false
  }

  /** The members of a lock's list after a call of p. */
  function QueueAfter(l: Locks, p: Pid, c: Call, q: Queue): seq<Pid>
    requires l.b.Sized()
  {
    var was, b := Q(l.t, q), l.b;
    match c
    case MutexInit(key) => if !Known(b.mutexRefs, key) && q == LockOf(SlotFor(b.mutexRefs, key)) then [] else was
    case Acquire(i) => if q == LockOf(i) && i < LOCK_NUM && b.mutexes[i].acquired then was + [p] else was
    case Unlock(i) => if q == LockOf(i) && InUse(b.mutexRefs, i) && b.mutexes[i].pid == p then [] else was
    case CondInit(key) => if !Known(b.condRefs, key) && q == CondOf(SlotFor(b.condRefs, key)) then [] else was
    case CondDestroy(d) => if q == CondOf(d) && InUse(b.condRefs, d) then [] else was
    case WaitOn(d, i) =>
      if !InUse(b.condRefs, d) || i >= LOCK_NUM then was
      else if q == LockOf(i) then [] else if q == CondOf(d) then was + [p] else was
    case Signal(d) => if q == CondOf(d) && InUse(b.condRefs, d) && was != [] then was[1..] else was
    case Broadcast(d) => if q == CondOf(d) && InUse(b.condRefs, d) then [] else was
    case SemInit(key, _) => if !Known(b.semRefs, key) && q == SemOf(SlotFor(b.semRefs, key)) then [] else was
    case SemDestroy(i) => if q == SemOf(i) && InUse(b.semRefs, i) then [] else was
    case SemDown(i) => if q == SemOf(i) && InUse(b.semRefs, i) && b.counts[i] <= 0 then was + [p] else was
    case SemUp(i) => if q == SemOf(i) && InUse(b.semRefs, i) && b.counts[i] < 0 && was != [] then was[1..] else was
    case BarInit(key, _) => if !Known(b.barRefs, key) && q == BarOf(SlotFor(b.barRefs, key)) then [] else was
    case BarDestroy(i) => if q == BarOf(i) && InUse(b.barRefs, i) then [] else was
    case Arrive(i) =>
      if q != BarOf(i) || !InUse(b.barRefs, i) then was
      else if b.bars[i].current + 1 < b.bars[i].goal then was + [p] else []
    case Quit => if Flushes(b, p, q) then [] else was
  }

  // ---- who becomes ready ----

  datatype Kind = LockKind | CondKind | SemKind | BarKind

  function ListOf(kind: Kind, i: nat): Queue {
    match kind
    case LockKind => LockOf(i)
    case CondKind => CondOf(i)
    case SemKind => SemOf(i)
    case BarKind => BarOf(i)
  }

  /** p is the recorded holder of mutex i, which is in use. */
  predicate HeldBy(b: Books, p: Pid, i: nat)
    requires b.Sized() && i < LOCK_NUM
  {
    b.mutexRefs[i].Used() && b.mutexes[i].acquired && b.mutexes[i].pid == p
  }

  function HeldLists(b: Books, p: Pid, k: nat): set<Queue>
    requires b.Sized() && k <= LOCK_NUM
  {
    set i | 0 <= i < k && HeldBy(b, p, i) :: LockOf(i)
  }

  /** Whoever is queued on the first k mutexes that p holds, in the order the exit of p comes to them. */
  function HeldWoken(b: Books, t: Table, p: Pid, k: nat): seq<Pid>
    requires b.Sized() && k <= LOCK_NUM
  {
    if k == 0 then []
    else HeldWoken(b, t, p, k - 1) + if HeldBy(b, p, k - 1) then Q(t, LockOf(k - 1)) else []
  }

  /** Whoever is queued on the first k locks of a kind that have p as their only user, but for lists emptied
      before. */
  function LastWoken(refs: seq<Ref>, t: Table, kind: Kind, p: Pid, k: nat, before: set<Queue>): seq<Pid>
    requires k <= |refs|
  {
    if k == 0 then []
    else
      LastWoken(refs, t, kind, p, k - 1, before) +
      if refs[k - 1].users == {p} && ListOf(kind, k - 1) !in before then Q(t, ListOf(kind, k - 1)) else []
  }

  function MutexWoken(l: Locks, p: Pid): seq<Pid>
    requires l.b.Sized()
  {
    HeldWoken(l.b, l.t, p, |l.b.mutexRefs|) +
    LastWoken(l.b.mutexRefs, l.t, LockKind, p, |l.b.mutexRefs|, HeldLists(l.b, p, LOCK_NUM))
  }

  /** Whoever the exit of p wakes by leaving its locks: mutexes, then barriers, conditions and semaphores. */
  function ExitWoken(l: Locks, p: Pid): seq<Pid>
    requires l.b.Sized()
  {
    MutexWoken(l, p) + LastWoken(l.b.barRefs, l.t, BarKind, p, |l.b.barRefs|, {}) +
    LastWoken(l.b.condRefs, l.t, CondKind, p, |l.b.condRefs|, {}) + LastWoken(l.b.semRefs, l.t, SemKind, p, |l.b.semRefs|, {})
  }

  /** Those a call of p makes ready, in the order in which they join the ready queue. */
  function Wakes(l: Locks, p: Pid, c: Call): seq<Pid>
    requires l.b.Sized()
  {
    var b := l.b;
    match c
    case Unlock(i) => if InUse(b.mutexRefs, i) && b.mutexes[i].pid == p then Q(l.t, LockOf(i)) else []
    case CondDestroy(d) => if InUse(b.condRefs, d) then Q(l.t, CondOf(d)) else []
    case WaitOn(d, i) => if InUse(b.condRefs, d) && i < LOCK_NUM then Q(l.t, LockOf(i)) else []
    case Signal(d) => if InUse(b.condRefs, d) && Q(l.t, CondOf(d)) != [] then Q(l.t, CondOf(d))[..1] else []
    case Broadcast(d) => if InUse(b.condRefs, d) then Q(l.t, CondOf(d)) else []
    case SemDestroy(i) => if InUse(b.semRefs, i) then Q(l.t, SemOf(i)) else []
    case SemUp(i) =>
      if InUse(b.semRefs, i) && b.counts[i] < 0 && Q(l.t, SemOf(i)) != [] then Q(l.t, SemOf(i))[..1] else []
    case BarDestroy(i) => if InUse(b.barRefs, i) then Q(l.t, BarOf(i)) else []
    case Arrive(i) => if InUse(b.barRefs, i) && b.bars[i].current + 1 >= b.bars[i].goal then Q(l.t, BarOf(i)) else []
    case Quit => ExitWoken(l, p) + Q(l.t, ExitOf(p))
    case _ => []
  }

  /** Those on a list that a call sets up anew: nothing finds them any more. */
  function Loses(l: Locks, c: Call): seq<Pid>
    requires l.b.Sized()
  {
    var b := l.b;
    match c
    case MutexInit(key) => if Known(b.mutexRefs, key) then [] else Q(l.t, LockOf(SlotFor(b.mutexRefs, key)))
    case CondInit(key) => if Known(b.condRefs, key) then [] else Q(l.t, CondOf(SlotFor(b.condRefs, key)))
    case SemInit(key, _) => if Known(b.semRefs, key) then [] else Q(l.t, SemOf(SlotFor(b.semRefs, key)))
    case BarInit(key, _) => if Known(b.barRefs, key) then [] else Q(l.t, BarOf(SlotFor(b.barRefs, key)))
    case _ => []
  }

  /** The caller does not run on after the call. */
  predicate Blocks(l: Locks, c: Call)
    requires l.b.Sized()
  {
    var b := l.b;
    match c
    case Acquire(i) => i < LOCK_NUM && b.mutexes[i].acquired
    case WaitOn(d, i) => InUse(b.condRefs, d) && i < LOCK_NUM
    case SemDown(i) => InUse(b.semRefs, i) && b.counts[i] <= 0
    case Arrive(i) => InUse(b.barRefs, i) && b.bars[i].current + 1 < b.bars[i].goal
    case Quit => true
    case _ => false
  }

  /** The harts run on, and some more processes are ready. */
  ghost predicate Rested(t: Table, r: Table, woken: seq<Pid>) {
    r.running == t.running && Q(r, Ready) == Q(t, Ready) + woken && Q(r, Sleep) == Q(t, Sleep) && AllReady(r, woken, None)
  }

  /** What a call does to the lists that belong to no lock. */
  ghost predicate Elsewhere(t: Table, r: Table, lost: seq<Pid>, gone: Option<Pid>) {
    && Q(r, Lost) == Q(t, Lost) + lost
    && forall x: Pid :: Q(r, ExitOf(x)) == if gone == Some(x) then [] else Q(t, ExitOf(x))
  }

  /** Where a call of the process on h puts everybody else. */
  ghost predicate Moved(l: Locks, h: Hart, c: Call, now: nat, l': Locks) {
    && l.b.Sized() && h < |l.t.running|
    && (if Blocks(l, c) then Departed(l.t, h, now, l'.t, Wakes(l, l.t.running[h], c))
        else Rested(l.t, l'.t, Wakes(l, l.t.running[h], c)))
    && Elsewhere(l.t, l'.t, Loses(l, c), if c.Quit? then Some(l.t.running[h]) else None)
  }

  /** The call fails an assertion, or follows a list head that was never set up. */
  predicate Halts(l: Locks, c: Call)
    requires l.b.Sized()
  {
    var b := l.b;
    match c
    case MutexInit(key) => SlotFor(b.mutexRefs, key) == LOCK_NUM
    case Acquire(i) => i < LOCK_NUM && b.mutexes[i].acquired && !b.mutexes[i].linked
    case CondInit(key) => SlotFor(b.condRefs, key) == LOCK_NUM
    case WaitOn(d, i) => InUse(b.condRefs, d) && i < LOCK_NUM && !b.mutexes[i].linked
    case SemInit(key, _) => SlotFor(b.semRefs, key) == LOCK_NUM
    case SemUp(i) => InUse(b.semRefs, i) && b.counts[i] < 0 && Q(l.t, SemOf(i)) == []
    case BarInit(key, _) => SlotFor(b.barRefs, key) == LOCK_NUM
    case Arrive(i) => InUse(b.barRefs, i) && b.bars[i].current >= b.bars[i].goal
    case _ => false
  }

  /** l' is the state after a call of p. */
  ghost predicate Called(l: Locks, p: Pid, c: Call, l': Locks) {
    && l.b.Sized() && !Halts(l, c) && l'.b == BooksAfter(l.b, p, c)
    && Placed(l'.t, None) && l'.t.pcbs.Keys == (if c.Quit? then l.t.pcbs.Keys - {p} else l.t.pcbs.Keys)
    && forall q :: OfLocks(q) ==> Q(l'.t, q) == QueueAfter(l, p, c, q)
  }

  /** A call of the process on h, with all it does to the locks and to the other processes. */
  ghost predicate Made(l: Locks, h: Hart, c: Call, now: nat, l': Locks) {
    h < |l.t.running| && Called(l, l.t.running[h], c, l') && Moved(l, h, c, now, l')
  }

  /** A process inside an acquire takes another turn at it; any other makes the call it is asked to. */
  function Asked(b: Books, p: Pid, c: Call): Call { if p in b.pending then Acquire(b.pending[p]) else c }

  datatype Step = Other(e: Event) | OnLock(h: Hart, c: Call, now: nat)

  /** A step of a user process on its hart. */
  predicate Acts(l: Locks, s: Step) {
    s.OnLock? && s.h < NR_CPUS && s.h < |l.t.running| && l.t.running[s.h] >= NR_CPUS
  }

  /** A process starts, yields, sleeps or waits for another to exit; inside an acquire it can only be preempted. */
  predicate Plain(l: Locks, s: Step) {
    && s.Other? && s.e.hart < |l.t.running| && (s.e.act.Yield? || l.t.running[s.e.hart] !in l.b.pending)
    && (s.e.act.Exec? || s.e.act.Yield? || s.e.act.DoSleepFor? || s.e.act.WaitFor?)
  }

  ghost predicate Stepped(l: Locks, s: Step, l': Locks) {
    if Acts(l, s) then Made(l, s.h, Asked(l.b, l.t.running[s.h], s.c), s.now, l')
    else Beside(l, l') && if Plain(l, s) then Acted(l.t, s.e, l'.t) else l'.t == l.t
  }

  /** A step that makes no call on a lock. */
  ghost predicate Beside(l: Locks, l': Locks) {
    && l'.b == l.b && Placed(l'.t, None) && l.t.pcbs.Keys <= l'.t.pcbs.Keys
    && forall q :: OfLocks(q) ==> Q(l'.t, q) == Q(l.t, q)
  }

  ghost predicate HaltsAt(l: Locks, s: Step) {
    l.b.Sized() && Acts(l, s) && Halts(l, Asked(l.b, l.t.running[s.h], s.c))
  }

  ghost function StealsAt(l: Locks, s: Step): set<nat> {
    if l.b.Sized() && Acts(l, s) then Steals(l.b, l.t.running[s.h], Asked(l.b, l.t.running[s.h], s.c)) else {}
  }

  // ---- what every step keeps ----

  function CellAt(l: Locks, i: nat): Cell
    requires l.b.Sized() && i < LOCK_NUM
  {
    Cell(l.b.mutexes[i], l.b.holders[i], Q(l.t, LockOf(i)))
  }

  /** A mutex nobody took from its holder is sound, and its holder lives if it is in use; one that was never set up is
      not in use and has nobody queued on it. */
  ghost predicate MutexAt(l: Locks, i: nat)
    requires l.b.Sized()
  {
    i < LOCK_NUM ==>
      && (i !in l.b.stolen ==> CellAt(l, i).Ok())
      && (i !in l.b.stolen && l.b.mutexRefs[i].Used() && l.b.mutexes[i].acquired ==> l.b.mutexes[i].pid in l.t.pcbs)
      && (!l.b.mutexes[i].linked ==> !l.b.mutexRefs[i].Used() && Q(l.t, LockOf(i)) == [])
  }

  /** Whoever is queued on a mutex will try to take it when woken. */
  ghost predicate QueuedAt(l: Locks, i: nat) {
    forall p :: p in Q(l.t, LockOf(i)) ==> p in l.b.pending && l.b.pending[p] == i
  }

  /** Whoever waits on a condition will take some mutex before its call returns; nobody waits on one not in use. */
  ghost predicate CondAt(l: Locks, c: nat) {
    && (forall p :: p in Q(l.t, CondOf(c)) ==> p in l.b.pending)
    && (!InUse(l.b.condRefs, c) ==> Q(l.t, CondOf(c)) == [])
  }

  ghost predicate SemAt(l: Locks, i: nat)
    requires l.b.Sized()
  {
    if InUse(l.b.semRefs, i) then SemOk(Q(l.t, SemOf(i)), l.b.counts[i], l.b.semLogs[i]) else Q(l.t, SemOf(i)) == []
  }

  ghost predicate BarAt(l: Locks, i: nat)
    requires l.b.Sized()
  {
    && (i < LOCK_NUM ==> l.b.barRefs[i].key == 0)
    && if InUse(l.b.barRefs, i) then BarOk(Q(l.t, BarOf(i)), l.b.bars[i], l.b.barLogs[i]) else Q(l.t, BarOf(i)) == []
  }

  ghost predicate PendingAt(b: Books, p: Pid) { p in b.pending ==> b.pending[p] < LOCK_NUM }

  ghost predicate Good(l: Locks) {
    && Placed(l.t, None) && l.b.Sized() && (forall p :: PendingAt(l.b, p))
    && (forall i :: MutexAt(l, i)) && (forall i :: QueuedAt(l, i)) && (forall i :: CondAt(l, i))
    && (forall i :: SemAt(l, i)) && (forall i :: BarAt(l, i))
  }

  lemma BesideGood(l: Locks, l': Locks)
    requires Good(l) && Beside(l, l')
    ensures Good(l')
  {
    forall i ensures MutexAt(l', i) { assert MutexAt(l, i); }
    forall i ensures QueuedAt(l', i) { assert QueuedAt(l, i); }
    forall i ensures CondAt(l', i) { assert CondAt(l, i); }
    forall i ensures SemAt(l', i) { assert SemAt(l, i); }
    forall i ensures BarAt(l', i) { assert BarAt(l, i); }
  }

  /** A caller is alive, on no list, and makes the call it was asked to only outside an acquire. */
  ghost predicate Caller(l: Locks, p: Pid, c: Call) {
    && p in l.t.pcbs && (forall q :: p !in Q(l.t, q)) && (p in l.b.pending ==> c == Acquire(l.b.pending[p]))
  }

  lemma CallerOnHart(l: Locks, s: Step)
    requires Good(l) && Acts(l, s)
    ensures Caller(l, l.t.running[s.h], Asked(l.b, l.t.running[s.h], s.c))
  {
    RunningUnqueued(l.t, s.h, Ready);
    forall q ensures l.t.running[s.h] !in Q(l.t, q) { RunningUnqueued(l.t, s.h, q); }
  }

  /** A call, seen from one list. */
  ghost predicate CalledAt(l: Locks, p: Pid, c: Call, l': Locks, q: Queue) {
    l.b.Sized() && !Halts(l, c) && l'.b == BooksAfter(l.b, p, c) && Q(l'.t, q) == QueueAfter(l, p, c, q)
  }

  /** What a call does to one mutex. */
  ghost function CellAfter(l: Locks, p: Pid, c: Call, i: nat): Cell
    requires l.b.Sized() && i < LOCK_NUM
  {
    var cell, b := CellAt(l, i), l.b;
    match c
    case MutexInit(key) => if !Known(b.mutexRefs, key) && i == SlotFor(b.mutexRefs, key) then SetUp(cell) else cell
    case Acquire(j) =>
      if j != i then cell else if cell.m.acquired then cell.(waiting := cell.waiting + [p]) else Taken(cell, p)
    case Unlock(j) => if j == i && b.mutexRefs[i].Used() && cell.m.pid == p then GivenUp(cell, p) else cell
    case WaitOn(d, j) => if j == i && InUse(b.condRefs, d) then GivenUp(cell, p) else cell
    case Quit => if FreedByExit(b, p, i) then GivenUp(cell, p) else cell
    case _ => cell
  }

  lemma CellIs(l: Locks, p: Pid, c: Call, l': Locks, i: nat)
    requires CalledAt(l, p, c, l', LockOf(i)) && i < LOCK_NUM
    ensures l'.b.Sized() && CellAt(l', i) == CellAfter(l, p, c, i)
    ensures l'.b.stolen == l.b.stolen + Steals(l.b, p, c)
    ensures l'.b.mutexRefs[i].Used() ==> l.b.mutexRefs[i].Used() || l'.b.mutexes[i] == Mutex(true, false, -1)
    ensures c.Quit? && l.b.mutexRefs[i].Used() && l'.b.mutexRefs[i].Used() ==>
      p != l'.b.mutexes[i].pid || !l'.b.mutexes[i].acquired
  {
    if c.Quit? { CellIsAtExit(l, p, l', i); }
  }

  lemma CellIsAtExit(l: Locks, p: Pid, l': Locks, i: nat)
    requires CalledAt(l, p, Quit, l', LockOf(i)) && i < LOCK_NUM
    ensures l'.b.Sized() && CellAt(l', i) == CellAfter(l, p, Quit, i)
    ensures l'.b.stolen == l.b.stolen + Steals(l.b, p, Quit)
    ensures l'.b.mutexRefs[i].Used() ==> l.b.mutexRefs[i].Used()
    ensures l.b.mutexRefs[i].Used() && l'.b.mutexRefs[i].Used() ==>
      p != l'.b.mutexes[i].pid || !l'.b.mutexes[i].acquired
  {
    ExitedAt(l.b, p, i);
  }

  lemma ExitedAt(b: Books, p: Pid, i: nat)
    requires b.Sized() && i < LOCK_NUM
    ensures Exited(b, p).mutexRefs[i] == b.mutexRefs[i].(users := b.mutexRefs[i].users - {p})
    ensures Exited(b, p).mutexes[i] == if FreedByExit(b, p, i) then b.mutexes[i].(acquired := false) else b.mutexes[i]
    ensures Exited(b, p).holders[i] == if FreedByExit(b, p, i) then b.holders[i] - {p} else b.holders[i]
  {
  }

  /** Every call keeps a sound mutex sound, exactly unless it takes it from another process that holds it. */
  lemma CallOkIff(l: Locks, p: Pid, c: Call, l': Locks, i: nat)
    requires CalledAt(l, p, c, l', LockOf(i)) && i < LOCK_NUM && CellAt(l, i).Ok()
    ensures l'.b.Sized() && (CellAt(l', i).Ok() <==> i !in Steals(l.b, p, c))
  {
    CellIs(l, p, c, l', i);
    GivenUpOkIff(CellAt(l, i), p);
    SetUpOkIff(CellAt(l, i));
  }

  lemma MutexKept(l: Locks, p: Pid, c: Call, l': Locks, i: nat)
    requires CalledAt(l, p, c, l', LockOf(i)) && MutexAt(l, i) && p in l.t.pcbs
    requires l'.t.pcbs.Keys == if c.Quit? then l.t.pcbs.Keys - {p} else l.t.pcbs.Keys
    ensures l'.b.Sized() && MutexAt(l', i)
  {
    if i < LOCK_NUM {
      CellIs(l, p, c, l', i);
      if i !in l.b.stolen { CallOkIff(l, p, c, l', i); }
    }
  }

  lemma QueuedKept(l: Locks, p: Pid, c: Call, l': Locks, i: nat)
    requires CalledAt(l, p, c, l', LockOf(i)) && QueuedAt(l, i) && Caller(l, p, c)
    ensures QueuedAt(l', i)
  {
  }

  lemma CondKept(l: Locks, p: Pid, c: Call, l': Locks, i: nat)
    requires CalledAt(l, p, c, l', CondOf(i)) && CondAt(l, i) && Caller(l, p, c)
    ensures CondAt(l', i)
  {
  }

  lemma SemKept(l: Locks, p: Pid, c: Call, l': Locks, i: nat)
    requires CalledAt(l, p, c, l', SemOf(i)) && SemAt(l, i)
    ensures l'.b.Sized() && SemAt(l', i)
  {
    if c.SemInit? || c.SemDestroy? || c.SemDown? || c.SemUp? || c.Quit? { SemCallKept(l, p, c, l', i); }
  }

  lemma SemCallKept(l: Locks, p: Pid, c: Call, l': Locks, i: nat)
    requires CalledAt(l, p, c, l', SemOf(i)) && SemAt(l, i)
    requires c.SemInit? || c.SemDestroy? || c.SemDown? || c.SemUp? || c.Quit?
    ensures l'.b.Sized() && SemAt(l', i)
  {
  }

  lemma BarKept(l: Locks, p: Pid, c: Call, l': Locks, i: nat)
    requires CalledAt(l, p, c, l', BarOf(i)) && BarAt(l, i)
    ensures l'.b.Sized() && BarAt(l', i)
  {
    if c.BarInit? || c.BarDestroy? || c.Arrive? || c.Quit? { BarCallKept(l, p, c, l', i); }
  }

  lemma BarCallKept(l: Locks, p: Pid, c: Call, l': Locks, i: nat)
    requires CalledAt(l, p, c, l', BarOf(i)) && BarAt(l, i)
    requires c.BarInit? || c.BarDestroy? || c.Arrive? || c.Quit?
    ensures l'.b.Sized() && BarAt(l', i)
  {
  }

  /** Every call keeps all of it. */
  lemma CallGood(l: Locks, p: Pid, c: Call, l': Locks)
    requires Good(l) && Called(l, p, c, l') && Caller(l, p, c)
    ensures Good(l')
  {
    forall q | OfLocks(q) ensures CalledAt(l, p, c, l', q) {}
    forall i ensures l'.b.Sized() && MutexAt(l', i) {
      assert MutexAt(l, i);
      MutexKept(l, p, c, l', i);
    }
    forall i ensures QueuedAt(l', i) {
      assert QueuedAt(l, i);
      QueuedKept(l, p, c, l', i);
    }
    forall i ensures CondAt(l', i) {
      assert CondAt(l, i);
      CondKept(l, p, c, l', i);
    }
    forall i ensures SemAt(l', i) && BarAt(l', i) {
      assert SemAt(l, i) && BarAt(l, i);
      SemKept(l, p, c, l', i);
      BarKept(l, p, c, l', i);
    }
    forall q ensures PendingAt(l'.b, q) { assert PendingAt(l.b, q); }
  }

  /** So does every step of every hart. */
  lemma StepGood(l: Locks, s: Step, l': Locks)
    requires Good(l) && Stepped(l, s, l')
    ensures Good(l')
    ensures l'.b.stolen == l.b.stolen + StealsAt(l, s)
    ensures forall i :: 0 <= i < LOCK_NUM && i !in l.b.stolen ==> (CellAt(l', i).Ok() <==> i !in StealsAt(l, s))
  {
    if Acts(l, s) {
      CallerOnHart(l, s);
      var p := l.t.running[s.h];
      var c := Asked(l.b, p, s.c);
      CallGood(l, p, c, l');
      forall i | 0 <= i < LOCK_NUM && i !in l.b.stolen ensures CellAt(l', i).Ok() <==> i !in Steals(l.b, p, c) {
        assert MutexAt(l, i) && Q(l'.t, LockOf(i)) == QueueAfter(l, p, c, LockOf(i));
        CallOkIff(l, p, c, l', i);
      }
    } else {
      BesideGood(l, l');
      forall i | 0 <= i < LOCK_NUM && i !in l.b.stolen ensures CellAt(l', i).Ok() { assert MutexAt(l', i); }
    }
  }

  // ---- the calls in plain terms ----

  /** Nobody has moved, but that some have become ready at the end of the queue. */
  ghost predicate OnlyReady(t: Table, r: Table, woken: seq<Pid>) {
    r.running == t.running && Q(r, Ready) == Q(t, Ready) + woken && AllReady(r, woken, None)
  }

  /** An acquire takes a free mutex and leaves everybody where they are; on a held one the caller joins its queue. */
  lemma AcquireMeans(l: Locks, h: Hart, i: nat, now: nat, l': Locks)
    requires Made(l, h, Acquire(i), now, l') && i < 16
    ensures var p := l.t.running[h];
      if !l.b.mutexes[i].acquired
      then l'.b.mutexes[i].acquired && l'.b.mutexes[i].pid == p && p in l'.b.holders[i] && OnlyReady(l.t, l'.t, [])
      else l'.b.mutexes == l.b.mutexes && Q(l'.t, LockOf(i)) == Q(l.t, LockOf(i)) + [p] && Departed(l.t, h, now, l'.t, [])
  {
  }

  /** A release by the recorded holder of a mutex in use frees it and makes everybody queued on it ready; any other
      does nothing. */
  lemma UnlockMeans(l: Locks, h: Hart, i: nat, now: nat, l': Locks)
    requires Made(l, h, Unlock(i), now, l') && i < 16
    ensures if l.b.mutexRefs[i].users != {} && l.b.mutexes[i].pid == l.t.running[h]
      then !l'.b.mutexes[i].acquired && Q(l'.t, LockOf(i)) == [] && OnlyReady(l.t, l'.t, Q(l.t, LockOf(i)))
      else l'.b == l.b && Q(l'.t, LockOf(i)) == Q(l.t, LockOf(i)) && OnlyReady(l.t, l'.t, [])
  {
  }

  /** A wait on a condition in use queues the caller there, frees the mutex and makes everybody queued on that ready. */
  lemma WaitMeans(l: Locks, h: Hart, c: nat, i: nat, now: nat, l': Locks)
    requires Made(l, h, WaitOn(c, i), now, l') && c < 16 && i < 16 && l.b.condRefs[c].users != {}
    ensures !l'.b.mutexes[i].acquired && Q(l'.t, LockOf(i)) == [] && Departed(l.t, h, now, l'.t, Q(l.t, LockOf(i)))
    ensures Q(l'.t, CondOf(c)) == Q(l.t, CondOf(c)) + [l.t.running[h]]
    ensures l.t.running[h] in l'.b.pending && l'.b.pending[l.t.running[h]] == i
  {
  }

  /** A signal makes the first process waiting on a condition in use ready, a broadcast all of them. */
  lemma SignalMeans(l: Locks, h: Hart, c: nat, now: nat, l': Locks)
    requires c < 16 && l.b.Sized() && l.b.condRefs[c].users != {} && Q(l.t, CondOf(c)) != []
    ensures Made(l, h, Signal(c), now, l') ==>
      OnlyReady(l.t, l'.t, [Q(l.t, CondOf(c))[0]]) && Q(l'.t, CondOf(c)) == Q(l.t, CondOf(c))[1..]
    ensures Made(l, h, Broadcast(c), now, l') ==> OnlyReady(l.t, l'.t, Q(l.t, CondOf(c))) && Q(l'.t, CondOf(c)) == []
  {
    var p, was := if h < |l.t.running| then l.t.running[h] else 0, Q(l.t, CondOf(c));
    assert was[..1] == [was[0]];
    assert Wakes(l, p, Signal(c)) == was[..1] && QueueAfter(l, p, Signal(c), CondOf(c)) == was[1..];
    assert Wakes(l, p, Broadcast(c)) == was && QueueAfter(l, p, Broadcast(c), CondOf(c)) == [];
  }

  /** A down on a semaphore in use takes one unit, and queues the caller exactly if there was none left; an up gives
      one, and makes the first in the queue ready exactly if the count was negative. */
  lemma UnitsMean(l: Locks, h: Hart, i: nat, now: nat, l': Locks)
    requires i < 16 && l.b.Sized() && l.b.semRefs[i].users != {}
    ensures Made(l, h, SemDown(i), now, l') ==>
      && l'.b.counts[i] == l.b.counts[i] - 1
      && if l.b.counts[i] > 0 then OnlyReady(l.t, l'.t, []) && Q(l'.t, SemOf(i)) == Q(l.t, SemOf(i))
         else Q(l'.t, SemOf(i)) == Q(l.t, SemOf(i)) + [l.t.running[h]] && Departed(l.t, h, now, l'.t, [])
    ensures Made(l, h, SemUp(i), now, l') ==>
      && l'.b.counts[i] == l.b.counts[i] + 1
      && if l.b.counts[i] >= 0 then OnlyReady(l.t, l'.t, []) && Q(l'.t, SemOf(i)) == Q(l.t, SemOf(i))
         else Q(l.t, SemOf(i)) != [] && OnlyReady(l.t, l'.t, [Q(l.t, SemOf(i))[0]])
              && Q(l'.t, SemOf(i)) == Q(l.t, SemOf(i))[1..]
  {
    if Q(l.t, SemOf(i)) != [] { assert Q(l.t, SemOf(i))[..1] == [Q(l.t, SemOf(i))[0]]; }
  }

  /** An arrival at a barrier in use queues the caller until as many have come as its goal; then all go on. */
  lemma ArriveMeans(l: Locks, h: Hart, i: nat, now: nat, l': Locks)
    requires Made(l, h, Arrive(i), now, l') && i < 16 && l.b.barRefs[i].users != {}
    ensures if l.b.bars[i].current + 1 < l.b.bars[i].goal
      then l'.b.bars[i] == Bar(l.b.bars[i].goal, l.b.bars[i].current + 1)
        && Q(l'.t, BarOf(i)) == Q(l.t, BarOf(i)) + [l.t.running[h]] && Departed(l.t, h, now, l'.t, [])
      else l'.b.bars[i] == Bar(l.b.bars[i].goal, 0) && Q(l'.t, BarOf(i)) == [] && OnlyReady(l.t, l'.t, Q(l.t, BarOf(i)))
  {
  }

  /** No lock can be had for a key exactly if all sixteen are in use under other keys. */
  lemma FullIff(refs: seq<Ref>, key: int)
    requires |refs| == LOCK_NUM
    ensures SlotFor(refs, key) == LOCK_NUM <==> forall i :: 0 <= i < 16 ==> refs[i].users != {} && refs[i].key != key
  {
  }

  // ---- when the kernel halts ----

  /** What the failing assertions mean: an up finds nobody although somebody lacks a unit exactly for a semaphore
      started below zero whose ups match its downs, and an arrival finds its barrier broken exactly if the goal is
      below one. */
  lemma HaltsIff(l: Locks, i: nat)
    requires Good(l)
    ensures Halts(l, SemUp(i)) <==>
      InUse(l.b.semRefs, i) && l.b.semLogs[i].init < 0 && l.b.semLogs[i].ups == l.b.semLogs[i].downs
    ensures Halts(l, Arrive(i)) <==> InUse(l.b.barRefs, i) && l.b.bars[i].goal < 1
  {
    assert SemAt(l, i) && BarAt(l, i);
  }

  /** A request for a barrier leads to one in use exactly if its key is 0 and some barrier is in use: the key is
      never stored, so that it stays 0 for all of them. */
  lemma BarrierSharedIff(l: Locks, key: int)
    requires Good(l)
    ensures InUse(l.b.barRefs, SlotFor(l.b.barRefs, key)) <==> key == 0 && exists j :: InUse(l.b.barRefs, j)
  {
    forall j: nat ensures j < LOCK_NUM ==> l.b.barRefs[j].key == 0 { assert BarAt(l, j); }
  }

  /** Two requests in a row for one key get the same barrier exactly if the key is 0. */
  lemma BarrierTwice(l: Locks, p: Pid, key: int, goal: int, l': Locks)
    requires Good(l) && Called(l, p, BarInit(key, goal), l') && !Halts(l, BarInit(key, goal))
    ensures l'.b.Sized() && (SlotFor(l'.b.barRefs, key) == SlotFor(l.b.barRefs, key) <==> key == 0)
  {
    var i, refs' := SlotFor(l.b.barRefs, key), ReferredBar(l.b.barRefs, key, {p});
    forall j: nat ensures j < LOCK_NUM ==> l.b.barRefs[j].key == 0 { assert BarAt(l, j); }
    assert refs'[i].Used() && l'.b.barRefs == refs';
    if key == 0 {
      assert forall j :: 0 <= j < i ==> refs'[j] == l.b.barRefs[j];
    }
  }

  /** Starting values for which those assertions hold. */
  predicate SoundCall(c: Call) { (c.SemInit? ==> c.init >= 0) && (c.BarInit? ==> c.goal >= 1) }

  /** Every semaphore in use started at zero or more, and every barrier in use has a goal of at least one. */
  ghost predicate SoundAt(b: Books, i: nat)
    requires b.Sized()
  {
    (InUse(b.semRefs, i) ==> b.semLogs[i].init >= 0) && (InUse(b.barRefs, i) ==> b.bars[i].goal >= 1)
  }

  ghost predicate Sound(b: Books) { b.Sized() && forall i :: SoundAt(b, i) }

  /** With sound starting values the kernel halts only because a call found all sixteen locks of a kind in use under
      other keys, or had to queue on, or release, a mutex that nobody ever initialised. */
  predicate OutOfLocks(b: Books, c: Call)
    requires b.Sized()
  {
    match c
    case MutexInit(key) => SlotFor(b.mutexRefs, key) == LOCK_NUM
    case CondInit(key) => SlotFor(b.condRefs, key) == LOCK_NUM
    case SemInit(key, _) => SlotFor(b.semRefs, key) == LOCK_NUM
    case BarInit(key, _) => SlotFor(b.barRefs, key) == LOCK_NUM
    case _ => false
  }

  predicate NeverSetUp(b: Books, c: Call)
    requires b.Sized()
  {
    && (c.Acquire? || c.WaitOn?) && c.i < LOCK_NUM && !b.mutexes[c.i].linked
    && if c.Acquire? then b.mutexes[c.i].acquired else InUse(b.condRefs, c.c)
  }

  lemma SoundHalts(l: Locks, c: Call)
    requires Good(l) && Sound(l.b)
    ensures Halts(l, c) <==> OutOfLocks(l.b, c) || NeverSetUp(l.b, c)
  {
    if c.SemUp? || c.Arrive? {
      assert SoundAt(l.b, c.i);
      HaltsIff(l, c.i);
    }
  }

  lemma SoundKept(l: Locks, p: Pid, c: Call, l': Locks)
    requires Sound(l.b) && Called(l, p, c, l') && SoundCall(c)
    ensures Sound(l'.b)
  {
    forall i ensures SoundAt(l'.b, i) { assert SoundAt(l.b, i); }
  }

  /** A semaphore in use counts process 0 among its users from the start, so that only a destroy call ends its use:
      no exit of a user process does. */
  lemma SemaphoreOutlives(b: Books, p: Pid, c: Call, i: nat)
    requires b.Sized() && p != 0 && i < LOCK_NUM && (b.semRefs[i].Used() ==> 0 in b.semRefs[i].users)
    ensures var b' := BooksAfter(b, p, c);
      && b'.Sized() && (b'.semRefs[i].Used() ==> 0 in b'.semRefs[i].users)
      && (b.semRefs[i].Used() ==> (b'.semRefs[i].Used() <==> c != SemDestroy(i)))
  {
    if c.SemInit? {
      var b' := BooksAfter(b, p, c);
      assert p in {0, p} && 0 in {0, p};
      assert SlotFor(b.semRefs, c.key) != i ==> b'.semRefs[i] == b.semRefs[i];
    } else if c.Quit? {
      assert Exited(b, p).semRefs[i] == b.semRefs[i].(users := b.semRefs[i].users - {p});
      assert b.semRefs[i].Used() ==> 0 in b.semRefs[i].users - {p};
    }
  }

  // ---- runs ----

  /** Every state follows from the one before it by its step. */
  ghost predicate Chain(seen: seq<Locks>, steps: seq<Step>) {
    && 0 < |seen| <= |steps| + 1
    && forall k :: 0 <= k < |seen| - 1 ==> Stepped(seen[k], steps[k], seen[k + 1])
  }

  /** One of the first k steps took mutex i from another process that held it. */
  ghost predicate TakenBy(seen: seq<Locks>, steps: seq<Step>, i: nat, k: nat) {
    exists j :: 0 <= j < k && j < |seen| && j < |steps| && i in StealsAt(seen[j], steps[j])
  }

  lemma {:induction false} RunGood(seen: seq<Locks>, steps: seq<Step>, k: nat)
    requires Chain(seen, steps) && Good(seen[0]) && k < |seen|
    ensures Good(seen[k])
  {
    if k > 0 {
      RunGood(seen, steps, k - 1);
      assert Stepped(seen[k - 1], steps[k - 1], seen[k - 1 + 1]);
      StepGood(seen[k - 1], steps[k - 1], seen[k]);
    }
  }

  /** Mutual exclusion: at every point of every run, a mutex is recorded as taken from a holder exactly if some step
      did that; otherwise it is sound. */
  lemma {:induction false} Exclusion(seen: seq<Locks>, steps: seq<Step>, i: nat, k: nat)
    requires Chain(seen, steps) && Good(seen[0]) && i < LOCK_NUM && i !in seen[0].b.stolen && k < |seen|
    ensures Good(seen[k]) && (i in seen[k].b.stolen <==> TakenBy(seen, steps, i, k))
    ensures !TakenBy(seen, steps, i, k) ==> CellAt(seen[k], i).Ok()
  {
    if k == 0 {
      assert MutexAt(seen[0], i);
    } else {
      Exclusion(seen, steps, i, k - 1);
      assert Stepped(seen[k - 1], steps[k - 1], seen[k - 1 + 1]);
      StolenStep(seen[k - 1], steps[k - 1], seen[k], i);
    }
  }

  lemma StolenStep(l: Locks, s: Step, l': Locks, i: nat)
    requires Good(l) && Stepped(l, s, l') && i < LOCK_NUM
    ensures Good(l') && (i in l'.b.stolen <==> i in l.b.stolen || i in StealsAt(l, s))
    ensures i !in l'.b.stolen ==> CellAt(l', i).Ok()
  {
    StepGood(l, s, l');
    assert MutexAt(l', i);
  }

  // ---- nobody is forgotten ----

  predicate IsInit(c: Call) { c.MutexInit? || c.CondInit? || c.SemInit? || c.BarInit? }

  lemma {:induction false} InHeldWoken(b: Books, t: Table, p: Pid, k: nat, i: nat, x: Pid)
    requires b.Sized() && i < k <= LOCK_NUM && HeldBy(b, p, i) && x in Q(t, LockOf(i))
    ensures x in HeldWoken(b, t, p, k)
  {
    if i < k - 1 { InHeldWoken(b, t, p, k - 1, i, x); }
  }

  lemma {:induction false} InLastWoken(refs: seq<Ref>, t: Table, kind: Kind, p: Pid, k: nat, before: set<Queue>, i: nat,
                                       x: Pid)
    requires i < k <= |refs| && refs[i].users == {p} && ListOf(kind, i) !in before && x in Q(t, ListOf(kind, i))
    ensures x in LastWoken(refs, t, kind, p, k, before)
  {
    if i < k - 1 { InLastWoken(refs, t, kind, p, k - 1, before, i, x); }
  }

  /** Whoever leaves a list because p exits is woken by it. */
  lemma FlushedAreWoken(l: Locks, p: Pid, q: Queue, x: Pid)
    requires l.b.Sized() && Flushes(l.b, p, q) && x in Q(l.t, q)
    ensures x in ExitWoken(l, p)
  {
    var b := l.b;
    match q
    case LockOf(i) =>
      if HeldBy(b, p, i) {
        InHeldWoken(b, l.t, p, |b.mutexRefs|, i, x);
      } else {
        assert LockOf(i) !in HeldLists(b, p, LOCK_NUM);
        InLastWoken(b.mutexRefs, l.t, LockKind, p, |b.mutexRefs|, HeldLists(b, p, LOCK_NUM), i, x);
      }
    case CondOf(i) => InLastWoken(b.condRefs, l.t, CondKind, p, |b.condRefs|, {}, i, x);
    case SemOf(i) => InLastWoken(b.semRefs, l.t, SemKind, p, |b.semRefs|, {}, i, x);
    case BarOf(i) => InLastWoken(b.barRefs, l.t, BarKind, p, |b.barRefs|, {}, i, x);
  }

  /** Whoever leaves a lock's list by a call that sets nothing up is woken by it. */
  lemma LeaversAreWoken(l: Locks, p: Pid, c: Call, q: Queue, x: Pid)
    requires l.b.Sized() && OfLocks(q) && x in Q(l.t, q) && x !in QueueAfter(l, p, c, q) && !IsInit(c)
    ensures x in Wakes(l, p, c)
  {
    if c.Quit? {
      FlushedAreWoken(l, p, q, x);
    } else if Q(l.t, q) != [] {
      assert Q(l.t, q) == Q(l.t, q)[..1] + Q(l.t, q)[1..];
    }
  }

  /** A step takes a process off a lock's list only to make it ready or to run it, unless it sets that lock up. */
  lemma LeaversGoOn(l: Locks, s: Step, l': Locks, q: Queue, x: Pid)
    requires Stepped(l, s, l') && OfLocks(q) && x in Q(l.t, q) && x !in Q(l'.t, q)
    ensures Acts(l, s)
    ensures !IsInit(Asked(l.b, l.t.running[s.h], s.c)) ==>
      x in l'.t.running || (x in Q(l'.t, Ready) && x in l'.t.pcbs && l'.t.pcbs[x].status == READY)
  {
    if Acts(l, s) {
      var p := l.t.running[s.h];
      var c := Asked(l.b, p, s.c);
      if !IsInit(c) {
        LeaversAreWoken(l, p, c, q, x);
        if Blocks(l, c) {
          DepartedStays(l.t, s.h, s.now, l'.t, Wakes(l, p, c), x);
          assert x == l'.t.running[s.h] ==> x in l'.t.running;
        }
      }
    }
  }

  lemma LosesOnlyByMutex(l: Locks, c: Call)
    requires Good(l) && !Halts(l, c)
    ensures Loses(l, c) != [] ==> c.MutexInit?
  {
    match c
    case CondInit(key) => assert CondAt(l, SlotFor(l.b.condRefs, key));
    case SemInit(key, _) => assert SemAt(l, SlotFor(l.b.semRefs, key));
    case BarInit(key, _) => assert BarAt(l, SlotFor(l.b.barRefs, key));
    case _ =>
  }

  /** Only a mutex that is held while nobody has initialised it can be set up with processes queued on it. */
  lemma LosesOnlyBySteal(l: Locks, p: Pid, c: Call)
    requires Good(l) && !Halts(l, c) && Loses(l, c) != []
    ensures c.MutexInit? && SlotFor(l.b.mutexRefs, c.key) < LOCK_NUM
    ensures var i := SlotFor(l.b.mutexRefs, c.key); i in l.b.stolen || i in Steals(l.b, p, c)
  {
    LosesOnlyByMutex(l, c);
    assert MutexAt(l, SlotFor(l.b.mutexRefs, c.key));
  }

  /** So as long as no mutex is taken from a holder, nobody is ever lost. */
  lemma {:induction false} NobodyLost(seen: seq<Locks>, steps: seq<Step>, k: nat)
    requires Chain(seen, steps) && Good(seen[0]) && seen[0].b.stolen == {} && Q(seen[0].t, Lost) == [] && k < |seen|
    requires forall i :: !TakenBy(seen, steps, i, k)
    ensures Good(seen[k]) && seen[k].b.stolen == {} && Q(seen[k].t, Lost) == []
  {
    if k > 0 {
      var j := k - 1;
      forall i ensures !TakenBy(seen, steps, i, j) { assert !TakenBy(seen, steps, i, k); }
      NobodyLost(seen, steps, j);
      var l, s, l' := seen[k - 1], steps[k - 1], seen[k];
      assert Stepped(l, s, seen[k - 1 + 1]);
      forall i ensures i !in StealsAt(l, s) { assert !TakenBy(seen, steps, i, k); }
      StepGood(l, s, l');
      LosesNobody(l, s, l');
    }
  }

  lemma LosesNobody(l: Locks, s: Step, l': Locks)
    requires Good(l) && Stepped(l, s, l') && l.b.stolen == {} && StealsAt(l, s) == {} && Q(l.t, Lost) == []
    ensures Q(l'.t, Lost) == []
  {
    if Acts(l, s) {
      var p := l.t.running[s.h];
      if Loses(l, Asked(l.b, p, s.c)) != [] { LosesOnlyBySteal(l, p, Asked(l.b, p, s.c)); }
    }
  }
}
