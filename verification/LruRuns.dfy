/** The LRU policy over whole runs: leaves stay ordered by the later of attach time and the last tick that
    found them accessed, so the page given up always has the least such stamp. */
module LruRuns {
  import opened Evict

  datatype Event =
    | Attach(id: nat, leaf: bool, accessed: bool)
    | Detach(at: nat)
    | Access(at: nat)
    | Tick
    | EvictOldest

  /** An event and the tick count at which it happens. */
  datatype Timed = Timed(event: Event, now: nat)

  /** The position of the last leaf among the first n pages, or -1. */
  function LastBelow(q: List, n: nat): (v: int)
    requires n <= |q|
    ensures -1 <= v < n && (v != -1 ==> q[v].leaf)
    ensures forall i :: v < i < n ==> !q[i].leaf
  {
    if n == 0 then -1 else if q[n - 1].leaf then n - 1 else LastBelow(q, n - 1)
  }

  /** The position of the oldest leaf, or -1. */
  function Oldest(q: List): (v: int)
    ensures v == -1 <==> NoLeaf(q)
    ensures v != -1 ==> 0 <= v && LastLeaf(q, v)
  {
    LastBelow(q, |q|)
  }

  lemma OldestUnique(q: List, v: nat)
    requires LastLeaf(q, v)
    ensures Oldest(q) == v
  {
    var w := Oldest(q);
    assert w != -1;
    assert forall i :: v < i < |q| ==> q[i] == q[v + 1..][i - v - 1];
    assert forall i :: w < i < |q| ==> q[i] == q[w + 1..][i - w - 1];
  }

  function Next(q: List, t: Timed): List {
    match t.event
    case Attach(id, leaf, accessed) => [Page(id, leaf, accessed, t.now)] + q
    case Detach(at) => if at < |q| then q[..at] + q[at + 1..] else q
    case Access(at) => if at < |q| then q[at := q[at].(accessed := true)] else q
    case Tick => AfterTick(q, t.now)
    case EvictOldest =>
      var v := Oldest(q);
      if v == -1 then q else q[v + 1..] + q[..v]
  }

  function Exec(q: List, run: seq<Timed>): List {
    if run == [] then q else Next(Exec(q, run[..|run| - 1]), run[|run| - 1])
  }

  ghost predicate InTimeOrder(run: seq<Timed>) {
    forall i, j :: 0 <= i < j < |run| ==> run[i].now <= run[j].now
  }

  ghost predicate PairOrdered(q: List, i: int, j: int) {
    0 <= i < j < |q| && q[i].leaf && q[j].leaf ==> q[i].stamp >= q[j].stamp
  }

  /** Leaves stand from the latest stamp to the earliest, and no stamp is in the future. */
  ghost predicate Ordered(q: List, clock: nat) {
    && (forall i, j :: PairOrdered(q, i, j))
    && (forall i :: 0 <= i < |q| ==> q[i].stamp <= clock)
  }

  /** The pages a tick leaves where they were. */
  function Kept(q: List): List {
    if q == [] then [] else
      var last := q[|q| - 1];
      if last.Touched() then Kept(q[..|q| - 1]) else Kept(q[..|q| - 1]) + [last]
  }

  /** The pages a tick moves, each stamped; the page visited last comes first. */
  function Moved(q: List, now: nat): List {
    if q == [] then [] else
      var last := q[|q| - 1];
      if last.Touched() then [last.Seen(now)] + Moved(q[..|q| - 1], now) else Moved(q[..|q| - 1], now)
  }

  /** The pages that stay are the leaves not used since the last tick. */
  lemma {:induction false} KeptAre(q: List)
    ensures forall p :: p in Kept(q) <==> p in q && p.leaf && !p.accessed
  {
    if q != [] {
      KeptAre(q[..|q| - 1]);
      assert q == q[..|q| - 1] + [q[|q| - 1]];
    }
  }

  /** All others move, stamped with the time of the tick, and leaves with their bits cleared. */
  lemma {:induction false} MovedAre(q: List, now: nat)
    ensures forall p :: p in Moved(q, now) ==> p.stamp == now && !(p.leaf && p.accessed)
    ensures forall p :: p in q && (!p.leaf || p.accessed) ==>
      p.(stamp := now, accessed := !p.leaf && p.accessed) in Moved(q, now)
  {
    if q != [] {
      MovedAre(q[..|q| - 1], now);
      assert q == q[..|q| - 1] + [q[|q| - 1]];
    }
  }

  /** A tick puts the touched pages first and keeps the others in their order. */
  lemma {:induction false} TickSorts(q: List, now: nat)
    ensures AfterTick(q, now) == Moved(q, now) + Kept(q)
  {
    if q != [] { TickSorts(q[..|q| - 1], now); }
  }

  function Ids(q: List): multiset<nat> {
    if q == [] then multiset{} else Ids(q[..|q| - 1]) + multiset{q[|q| - 1].id}
  }

  lemma {:induction false} IdsPrepend(p: Page, q: List)
    ensures Ids([p] + q) == Ids(q) + multiset{p.id}
  {
    var r := [p] + q;
    if q == [] {
      assert r[..0] == [];
    } else {
      var front := q[..|q| - 1];
      IdsPrepend(p, front);
      assert r[..|r| - 1] == [p] + front;
    }
  }

  /** A tick loses no page and invents none. */
  lemma {:induction false} TickPermutes(q: List, now: nat)
    ensures Ids(AfterTick(q, now)) == Ids(q)
  {
    if q != [] {
      var last := q[|q| - 1];
      var r := AfterTick(q[..|q| - 1], now);
      TickPermutes(q[..|q| - 1], now);
      if last.Touched() {
        IdsPrepend(last.Seen(now), r);
      } else {
        assert (r + [last])[..|r|] == r;
      }
    }
  }

  lemma {:induction false} KeptOrdered(q: List, clock: nat)
    requires Ordered(q, clock)
    ensures Ordered(Kept(q), clock)
  {
    if q != [] {
      var front := q[..|q| - 1];
      assert forall i, j :: PairOrdered(q, i, j) ==> PairOrdered(front, i, j);
      KeptOrdered(front, clock);
      var last := q[|q| - 1];
      var k := Kept(front);
      KeptAre(front);
      if !last.Touched() {
        var r := k + [last];
        forall i, j ensures PairOrdered(r, i, j) {
          assert PairOrdered(k, i, j);
          if 0 <= i < |k| == j {
            assert k[i] in front;
            var x :| 0 <= x < |front| && front[x] == k[i];
            assert PairOrdered(q, x, |q| - 1);
          }
        }
      }
    }
  }

  lemma TickOrdered(q: List, clock: nat, now: nat)
    requires Ordered(q, clock) && clock <= now
    ensures Ordered(AfterTick(q, now), now)
  {
    TickSorts(q, now);
    KeptOrdered(q, clock);
    MovedAre(q, now);
    var m, k := Moved(q, now), Kept(q);
    var r := m + k;
    forall i, j ensures PairOrdered(r, i, j) {
      if 0 <= i < j < |r| {
        assert i < |m| ==> r[i] in m;
        assert j < |m| ==> r[j] in m;
        assert PairOrdered(k, i - |m|, j - |m|);
        assert j >= |m| ==> r[j] == k[j - |m|];
      }
    }
    forall i | 0 <= i < |r| ensures r[i].stamp <= now {
      if i < |m| { assert r[i] in m; } else { assert r[i] == k[i - |m|]; }
    }
  }

  lemma EvictOrdered(q: List, clock: nat, v: nat)
    requires Ordered(q, clock) && LastLeaf(q, v)
    ensures Ordered(q[v + 1..] + q[..v], clock)
    ensures forall i :: 0 <= i < |q| && q[i].leaf ==> q[v].stamp <= q[i].stamp
  {
    var t := q[v + 1..];
    var r := t + q[..v];
    forall i, j ensures PairOrdered(r, i, j) {
      if 0 <= i < j < |r| && i >= |t| {
        assert PairOrdered(q, i - |t|, j - |t|);
      } else if 0 <= i < |t| {
        assert r[i] == t[i];
      }
    }
    assert forall x :: v < x < |q| ==> q[x] == t[x - v - 1];
    forall i | 0 <= i < |q| && q[i].leaf ensures q[v].stamp <= q[i].stamp {
      assert PairOrdered(q, i, v);
    }
  }

  lemma NextOrdered(q: List, clock: nat, t: Timed)
    requires Ordered(q, clock) && clock <= t.now
    ensures Ordered(Next(q, t), t.now)
  {
    var r := Next(q, t);
    match t.event
    case Attach(_, _, _) =>
      forall i, j ensures PairOrdered(r, i, j) {
        assert PairOrdered(q, i - 1, j - 1);
      }
    case Detach(at) =>
      forall i, j ensures PairOrdered(r, i, j) {
        assert PairOrdered(q, i, j) && PairOrdered(q, i, j + 1) && PairOrdered(q, i + 1, j + 1);
      }
    case Access(_) =>
      forall i, j ensures PairOrdered(r, i, j) {
        assert PairOrdered(q, i, j);
      }
    case Tick =>
      TickOrdered(q, clock, t.now);
    case EvictOldest =>
      if Oldest(q) != -1 { EvictOrdered(q, clock, Oldest(q)); }
  }

  /** Over every run from an empty group whose clock never goes back, leaves stay ordered by stamp. */
  lemma {:induction false} RunOrdered(run: seq<Timed>)
    requires InTimeOrder(run)
    ensures Ordered(Exec([], run), if run == [] then 0 else run[|run| - 1].now)
  {
    if run != [] {
      RunOrdered(run[..|run| - 1]);
      NextOrdered(Exec([], run[..|run| - 1]), if |run| == 1 then 0 else run[|run| - 2].now, run[|run| - 1]);
    }
  }

  /** The least recently used leaf: after any such run, the page LRU gives up has the least stamp of all leaves. */
  lemma LruVictim(run: seq<Timed>, v: nat)
    requires InTimeOrder(run) && LastLeaf(Exec([], run), v)
    ensures var q := Exec([], run); forall i :: 0 <= i < |q| && q[i].leaf ==> q[v].stamp <= q[i].stamp
  {
    RunOrdered(run);
    EvictOrdered(Exec([], run), if run == [] then 0 else run[|run| - 1].now, v);
  }

  /** A group under the LRU policy. */
  class LruGroup {
    const group: Group

    constructor ()
      ensures fresh(group) && group.pages == []
    {
      group := new Group();
    }

    method Apply(t: Timed)
      modifies group
      ensures group.pages == Next(old(group.pages), t)
    {
      match t.event
      case Attach(id, leaf, accessed) =>
        group.Prepend(Page(id, leaf, accessed, t.now));
      case Detach(at) =>
        if at < |group.pages| { group.Remove(at); }
      case Access(at) =>
        if at < |group.pages| { group.SetAccessed(at); }
      case Tick =>
        group.OnTimer(t.now);
      case EvictOldest =>
        ghost var q := group.pages;
        var found := group.FifoEvict();
        if found {
          ghost var v: nat :| LastLeaf(q, v) && group.pages == TurnedTo(q, v);
          OldestUnique(q, v);
          group.Remove(|group.pages| - 1);
        }
    }

    /** Any sequence of events: the list is what the events say, and stays ordered by last use. */
    method Run(run: seq<Timed>)
      requires InTimeOrder(run) && group.pages == []
      modifies group
      ensures group.pages == Exec([], run)
      ensures Ordered(group.pages, if run == [] then 0 else run[|run| - 1].now)
    {
      for k := 0 to |run|
        invariant group.pages == Exec([], run[..k])
      {
        Apply(run[k]);
        assert run[..k + 1][..k] == run[..k];
      }
      assert run[..|run|] == run;
      RunOrdered(run);
    }
  }
}
