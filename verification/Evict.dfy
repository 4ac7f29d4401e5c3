/** Page replacement: which page each policy gives up, and what it does to the group's list.
    The list runs from the most recently attached page to the oldest. */
module Evict {
  /** A page on a group's list. Only leaf pages (user data) may be evicted; `stamp` is the later of the time
      the page was attached and the last timer tick that found it accessed. */
  datatype Page = Page(id: nat, leaf: bool, accessed: bool, stamp: nat) {
    function Cleared(): Page { if leaf then this.(accessed := false) else this }
    /** A timer tick moves the page: page tables always, leaves when accessed. */
    predicate Touched() { !leaf || accessed }
    function Seen(now: nat): Page { Cleared().(stamp := now) }
    /** A leaf that has not been used since its bit was last cleared. */
    predicate Idle() { leaf && !accessed }
  }

  type List = seq<Page>

  ghost predicate NoLeaf(q: List) { forall i :: 0 <= i < |q| ==> !q[i].leaf }

  ghost predicate NoIdle(q: List) { forall i :: 0 <= i < |q| ==> !q[i].Idle() }

  ghost predicate HasLeaf(q: List) { exists i :: 0 <= i < |q| && q[i].leaf }

  function ClearAll(q: List): List {
    seq<Page>(|q|, i requires 0 <= i < |q| => q[i].Cleared())
  }

  lemma ClearAllConcat(p: List, q: List)
    ensures ClearAll(p + q) == ClearAll(p) + ClearAll(q)
  {
  }

  lemma ClearNoLeaf(q: List)
    requires NoLeaf(q)
    ensures ClearAll(q) == q
  {
  }

  /** The oldest leaf stands at position v: it is a leaf and everything after it is not. */
  ghost predicate LastLeaf(q: List, v: nat) { v < |q| && q[v].leaf && NoLeaf(q[v + 1..]) }

  /** The list turned so that position v comes last. */
  function TurnedTo(q: List, v: nat): List
    requires v < |q|
  {
    q[v + 1..] + q[..v + 1]
  }

  /** What second chance must leave behind when it stops at position v of the original list: the list turned
      to v, with the pages passed over cleared. When every leaf had been used, all were passed over. */
  function AfterSecondChance(q: List, v: nat, all: bool): List
    requires v < |q|
  {
    ClearAll(q[v + 1..]) + if all then ClearAll(q[..v + 1]) else q[..v + 1]
  }

  /** The page second chance must choose: the last idle leaf, or the last leaf when none is idle. */
  ghost predicate SecondChanceChoice(q: List, v: nat) {
    && v < |q| && q[v].leaf
    && if NoIdle(q) then NoLeaf(q[v + 1..]) else q[v].Idle() && NoIdle(q[v + 1..])
  }

  ghost predicate SecondChanceDone(q: List, r: List) {
    exists v: nat ::
      SecondChanceChoice(q, v) && r == AfterSecondChance(q, v, NoIdle(q))
  }

  lemma ChoiceUnique(q: List, v: nat, w: nat)
    requires SecondChanceChoice(q, v) && SecondChanceChoice(q, w)
    ensures v == w
  {
    assert forall i :: v < i < |q| ==> q[i] == q[v + 1..][i - v - 1];
    assert forall i :: w < i < |q| ==> q[i] == q[w + 1..][i - w - 1];
  }

  /** The list with its last pages, as many as `moved`, taken to the front one at a time. */
  function Rotated(q: List, moved: nat): List
    requires moved <= |q|
  {
    q[|q| - moved..] + q[..|q| - moved]
  }

  lemma RotateStep(q: List, moved: nat)
    requires moved < |q|
    ensures var r := Rotated(q, moved);
      |r| == |q| && [r[|r| - 1]] + r[..|r| - 1] + r[|r|..] == Rotated(q, moved + 1)
  {
    var m := |q| - moved;
    assert q[m - 1..] == [q[m - 1]] + q[m..];
    assert q[..m] == q[..m - 1] + [q[m - 1]];
  }

  /** None of the last k pages was idle. */
  ghost predicate Skipped(turned: List, k: nat) { k <= |turned| && NoIdle(turned[|turned| - k..]) }

  /** The list after its last k pages have been passed over. */
  function Passed(turned: List, k: nat): List
    requires k <= |turned|
  {
    ClearAll(turned[|turned| - k..]) + turned[..|turned| - k]
  }

  /** The last page at each point of the turn; after a full turn it is the chosen leaf with its bit clear. */
  lemma PassedTail(q: List, l: nat, turned: List, k: nat)
    requires LastLeaf(q, l) && turned == TurnedTo(q, l) && k <= |turned|
    ensures |Passed(turned, k)| == |turned| > 0
    ensures k < |turned| ==> Passed(turned, k)[|turned| - 1] == turned[|turned| - k - 1]
    ensures k == |turned| ==> Passed(turned, k)[|turned| - 1].Idle()
  {
    assert turned[|turned| - 1] == q[l];
  }

  lemma StopAt(q: List, l: nat, v: nat)
    requires LastLeaf(q, l) && v <= l && q[v].Idle() && NoIdle(q[v + 1..l + 1])
    ensures SecondChanceChoice(q, v) && !NoIdle(q)
    ensures TurnedTo(q, l)[|q| - l - 1 + v] == q[v] && TurnedTo(q, l)[|q| - l + v..] == q[v + 1..l + 1]
    ensures Passed(TurnedTo(q, l), l - v) == AfterSecondChance(q, v, false)
  {
    var t := q[l + 1..];
    var passed := q[v + 1..l + 1];
    var behind := q[v + 1..];
    assert behind == passed + t;
    ClearAllConcat(passed, t);
    ClearNoLeaf(t);
    assert TurnedTo(q, l)[..|q| - l + v] == t + q[..v + 1];
    forall i | 0 <= i < |behind| ensures !behind[i].Idle() {
      if i < |passed| { assert behind[i] == passed[i]; } else { assert behind[i] == t[i - |passed|]; }
    }
  }

  lemma StopEarly(q: List, l: nat, turned: List, k: nat)
    requires LastLeaf(q, l) && turned == TurnedTo(q, l) && k < |turned| && Skipped(turned, k)
    requires turned[|turned| - k - 1].Idle()
    ensures exists v: nat ::
      SecondChanceChoice(q, v) && !NoIdle(q) && Passed(turned, k) == AfterSecondChance(q, v, false)
  {
    var n := |turned|;
    var t := q[l + 1..];
    var j := n - k - 1;
    assert forall i :: 0 <= i < |t| ==> turned[i] == t[i] && !t[i].leaf;
    var v: nat := j - |t|;
    assert turned[n - k..] == q[v + 1..l + 1];
    StopAt(q, l, v);
  }

  lemma SecondChanceStop(q: List, l: nat, turned: List, k: nat)
    requires LastLeaf(q, l) && turned == TurnedTo(q, l) && Skipped(turned, k)
    requires k == |turned| || turned[|turned| - k - 1].Idle()
    ensures SecondChanceDone(q, Passed(turned, k))
  {
    var n := |turned|;
    if k == n {
      assert turned[n - k..] == turned;
      forall i | 0 <= i < |q| ensures !q[i].Idle() {
        assert q[i] == turned[if i <= l then i + (n - l - 1) else i - l - 1];
      }
      ClearAllConcat(q[l + 1..], q[..l + 1]);
      assert SecondChanceChoice(q, l);
    } else {
      StopEarly(q, l, turned, k);
    }
  }

  lemma PassOne(turned: List, k: nat)
    requires k < |turned| && Skipped(turned, k) && !turned[|turned| - k - 1].Idle()
    ensures var n := |turned|;
      && |Passed(turned, k)| == n && Passed(turned, k)[n - 1] == turned[n - k - 1]
      && [turned[n - k - 1].Cleared()] + Passed(turned, k)[..n - 1] + Passed(turned, k)[n..] == Passed(turned, k + 1)
      && Skipped(turned, k + 1)
  {
    var n := |turned|;
    assert turned[n - k - 1..] == [turned[n - k - 1]] + turned[n - k..];
  }

  /** The pages a tick moves, in reverse, then the rest in order. */
  function AfterTick(q: List, now: nat): List {
    if q == [] then []
    else
      var last := q[|q| - 1];
      var r := AfterTick(q[..|q| - 1], now);
      if last.Touched() then [last.Seen(now)] + r else r + [last]
  }

  lemma {:induction false} TickLength(q: List, now: nat)
    ensures |AfterTick(q, now)| == |q|
  {
    if q != [] { TickLength(q[..|q| - 1], now); }
  }

  /** The list after a tick has visited its first i pages. */
  function TickedTo(q: List, i: nat, now: nat): List
    requires i <= |q|
  {
    AfterTick(q[..i], now) + q[i..]
  }

  lemma TickStep(q: List, i: nat, now: nat)
    requires i < |q|
    ensures |TickedTo(q, i, now)| == |q| && TickedTo(q, i, now)[i] == q[i]
    ensures var r := TickedTo(q, i, now);
      (if q[i].Touched() then [q[i].Seen(now)] + r[..i] + r[i + 1..] else r) == TickedTo(q, i + 1, now)
  {
    TickLength(q[..i], now);
    assert q[..i + 1][..i] == q[..i];
    var r := TickedTo(q, i, now);
    assert r[..i] == AfterTick(q[..i], now) && r[i + 1..] == q[i + 1..];
    assert q[i..] == [q[i]] + q[i + 1..];
  }

  class Group {
    var pages: List

    constructor ()
      ensures pages == []
    {
      pages := [];
    }

    method Prepend(page: Page)
      modifies this
      ensures pages == [page] + old(pages)
    {
      pages := [page] + pages;
    }

    method Remove(i: nat)
      requires i < |pages|
      modifies this
      ensures pages == old(pages)[..i] + old(pages)[i + 1..]
    {
      pages := pages[..i] + pages[i + 1..];
    }

    method SetAccessed(i: nat)
      requires i < |pages|
      modifies this
      ensures pages == old(pages)[i := old(pages)[i].(accessed := true)]
    {
      pages := pages[i := pages[i].(accessed := true)];
    }

    method MoveToFront(i: nat, page: Page)
      requires i < |pages|
      modifies this
      ensures pages == [page] + old(pages)[..i] + old(pages)[i + 1..]
    {
      Remove(i);
      Prepend(page);
      assert pages == [page] + old(pages)[..i] + old(pages)[i + 1..];
    }

    /** FIFO (and LRU) victim: the oldest leaf. The page tables behind it move to the front in order, so the
        victim ends up last. */
    method FifoEvict() returns (found: bool)
      modifies this
      ensures found <==> HasLeaf(old(pages))
      ensures !found ==> pages == old(pages)
      ensures found ==> exists v: nat :: LastLeaf(old(pages), v) && pages == TurnedTo(old(pages), v)
    {
      ghost var q := pages;
      var i := |pages|;
      while i > 0 && !pages[i - 1].leaf
        invariant 0 <= i <= |pages| && NoLeaf(pages[i..])
      {
        assert pages[i - 1..] == [pages[i - 1]] + pages[i..];
        i := i - 1;
      }
      found := i > 0;
      if found {
        var v := i - 1;
        assert LastLeaf(q, v);
        var trailing := |pages| - i;
        var moved := 0;
        assert pages == Rotated(q, 0);
        while moved < trailing
          invariant 0 <= moved <= trailing
          invariant pages == Rotated(q, moved)
        {
          RotateStep(q, moved);
          MoveToFront(|pages| - 1, pages[|pages| - 1]);
          moved := moved + 1;
        }
        assert pages == TurnedTo(q, v);
      } else {
        assert pages[0..] == pages;
      }
    }

    /** Second chance: give up the oldest leaf whose accessed bit is clear, clearing the bit of every leaf
        passed over; the loop ends after at most one full turn. */
    method SecondChanceEvict() returns (found: bool)
      modifies this
      ensures found <==> HasLeaf(old(pages))
      ensures !found ==> pages == old(pages)
      ensures found ==> SecondChanceDone(old(pages), pages)
    {
      ghost var q := pages;
      found := FifoEvict();
      if !found {
        return;
      }
      ghost var l: nat :| LastLeaf(q, l) && pages == TurnedTo(q, l);
      PassOver(q, l);
    }

    /** Passes over pages from the back until the last one is an idle leaf. */
    method PassOver(ghost q: List, ghost l: nat)
      requires LastLeaf(q, l) && pages == TurnedTo(q, l)
      modifies this
      ensures SecondChanceDone(q, pages)
    {
      ghost var turned := pages;
      ghost var k := 0;  // pages passed over so far
      assert pages == Passed(turned, 0);
      while true
        invariant 0 <= k <= |turned|
        invariant pages == Passed(turned, k)
        invariant Skipped(turned, k)
        decreases |turned| + 1 - k
      {
        PassedTail(q, l, turned, k);
        var tail := pages[|pages| - 1];
        if tail.leaf && !tail.accessed {
          SecondChanceStop(q, l, turned, k);
          return;
        }
        PassTail(turned, k);
        k := k + 1;
      }
    }

    /** Passes over the last page: a leaf loses its accessed bit, and either way it moves to the front. */
    method PassTail(ghost turned: List, ghost k: nat)
      requires k < |turned| && pages == Passed(turned, k) && !turned[|turned| - k - 1].Idle()
      requires Skipped(turned, k)
      modifies this
      ensures pages == Passed(turned, k + 1) && Skipped(turned, k + 1)
    {
      PassOne(turned, k);
      var tail := pages[|pages| - 1];
      if tail.leaf {
        MoveToFront(|pages| - 1, tail.Cleared());
      } else {
        MoveToFront(|pages| - 1, tail);
      }
    }

    /** LRU timer tick: every used leaf (and every page table) moves to the front, newest last, with its bit
        cleared; the others keep their order behind. */
    method OnTimer(now: nat)
      modifies this
      ensures pages == AfterTick(old(pages), now)
    {
      ghost var q := pages;
      var n := |pages|;
      var i := 0;
      assert pages == TickedTo(q, 0, now);
      while i < n
        invariant 0 <= i <= n == |q| && pages == TickedTo(q, i, now)
      {
        TickStep(q, i, now);
        var page := pages[i];
        if page.Touched() {
          MoveToFront(i, page.Seen(now));
        }
        i := i + 1;
      }
      assert q[..i] == q;
    }
  }
}
