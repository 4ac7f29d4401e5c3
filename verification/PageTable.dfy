/** Three-level page tables in memory: what a walk finds, and sharing one tree's mappings with another. */
module PageTable {
  import opened Common
  import opened Sv39

  const PTE_ENTRY_NUM := 512

  /** An entry: not present, a leaf (any of the R, W, X bits set), or a link to the next table. */
  datatype Entry = Absent(bits: nat) | Leaf(bits: nat) | Table(frame: Frame)

  type Memory = map<Frame, seq<Entry>>

  /** The leaf entry that translation finds, with the number of table levels below it. The path holds one
      index per level, the top one first. */
  datatype Hit = Hit(leaf: Entry, below: nat)

  function EntryWalk(m: Memory, e: Entry, rest: seq<nat>): Option<Hit>
    decreases |rest|, 1
  {
    match e
    case Absent(_) => None
    case Leaf(_) => Some(Hit(e, |rest|))
    case Table(f) => Walk(m, f, rest)
  }

  function Walk(m: Memory, root: Frame, path: seq<nat>): Option<Hit>
    decreases |path|, 0
  {
    if path == [] || root !in m || path[0] >= |m[root]| then None
    else EntryWalk(m, m[root][path[0]], path[1..])
  }

  /** The path of a virtual address: its three table indices. */
  function Indices(va: Word): (path: seq<nat>)
    ensures |path| == 3 && forall k :: 0 <= k < 3 ==> path[k] < PTE_ENTRY_NUM
  {
    [Vpn(va, 2) as nat, Vpn(va, 1) as nat, Vpn(va, 0) as nat]
  }

  /** What the tables at root translate an address to. */
  function Translate(m: Memory, root: Frame, va: Word): Option<Hit> { Walk(m, root, Indices(va)) }

  lemma AsNatInjective(a: Word, b: Word)
    requires a as nat == b as nat
    ensures a == b
  {
    assert a == (a as nat) as Word;
  }

  /** Two pages with the same path are the same page. */
  lemma SamePath(va: Word, wa: Word)
    requires va & 0xfff == 0 && va & VA_MASK == va && wa & 0xfff == 0 && wa & VA_MASK == wa
    requires Indices(va) == Indices(wa)
    ensures va == wa
  {
    var path := Indices(va);
    var path' := Indices(wa);
    assert path[0] == path'[0] && path[1] == path'[1] && path[2] == path'[2];
    AsNatInjective(Vpn(va, 2), Vpn(wa, 2));
    AsNatInjective(Vpn(va, 1), Vpn(wa, 1));
    AsNatInjective(Vpn(va, 0), Vpn(wa, 0));
    SameVpns(va, wa);
  }

  /** Every path of three indices is that of the address built from them. */
  lemma PathOfRebuilt(i2: Word, i1: Word, i0: Word)
    requires i2 & 0x1ff == i2 && i1 & 0x1ff == i1 && i0 & 0x1ff == i0
    ensures Indices(ChildVa(ChildVa(ChildVa(0, i2, 2), i1, 1), i0, 0)) == [i2 as nat, i1 as nat, i0 as nat]
  {
    VpnOfRebuilt(i2, i1, i0);
  }

  /** The table at root, and everything below it, lies in the given frames and is at most level + 1 deep. */
  ghost predicate Tree(m: Memory, root: Frame, level: nat, frames: set<Frame>)
    decreases level, 2
  {
    root in frames && Below(m, root, level, frames)
  }

  /** The tables below root lie in the given frames. */
  ghost predicate Below(m: Memory, root: Frame, level: nat, frames: set<Frame>)
    decreases level, 1
  {
    && root in m && |m[root]| == PTE_ENTRY_NUM
    && forall i :: 0 <= i < PTE_ENTRY_NUM ==> Under(m, m[root][i], level, frames)
  }

  ghost predicate Under(m: Memory, e: Entry, level: nat, frames: set<Frame>)
    decreases level, 0
  {
    e.Table? ==> level > 0 && Tree(m, e.frame, level - 1, frames)
  }

  ghost predicate Same(m: Memory, n: Memory, frames: set<Frame>) {
    forall f :: f in frames && f in m ==> f in n && n[f] == m[f]
  }

  /** Changing other frames changes neither the tree nor any walk through it. */
  lemma {:induction false} TreeStays(m: Memory, n: Memory, root: Frame, level: nat, frames: set<Frame>, more: set<Frame>)
    requires Tree(m, root, level, frames) && Same(m, n, frames) && frames <= more
    ensures Tree(n, root, level, more)
    ensures forall path :: |path| == level + 1 ==> Walk(n, root, path) == Walk(m, root, path)
    decreases level, 1
  {
    forall i | 0 <= i < PTE_ENTRY_NUM
      ensures Under(n, n[root][i], level, more)
      ensures forall rest :: |rest| == level ==> EntryWalk(n, m[root][i], rest) == EntryWalk(m, m[root][i], rest)
    {
      UnderStays(m, n, m[root][i], level, frames, more);
    }
  }

  lemma {:induction false} UnderStays(m: Memory, n: Memory, e: Entry, level: nat, frames: set<Frame>, more: set<Frame>)
    requires Under(m, e, level, frames) && Same(m, n, frames) && frames <= more
    ensures Under(n, e, level, more)
    ensures forall rest :: |rest| == level ==> EntryWalk(n, e, rest) == EntryWalk(m, e, rest)
    decreases level, 0
  {
    if e.Table? {
      TreeStays(m, n, e.frame, level - 1, frames, more);
    }
  }

  /** What the destination must translate a path to: the source's mapping where it has one. */
  function Shared(src: Option<Hit>, dest: Option<Hit>): Option<Hit> { if src.Some? then src else dest }

  /** Entry e of the destination now translates as it should, given the source's entry and the old one. */
  ghost predicate EntryShared(m: Memory, e: Entry, m0: Memory, src: Entry, was: Entry, level: nat) {
    forall rest :: |rest| == level ==> EntryWalk(m, e, rest) == Shared(EntryWalk(m0, src, rest), EntryWalk(m0, was, rest))
  }

  /** The first i entries of dest have been dealt with: they translate as they should, the others are as
      they were, and no other table that existed before has changed. */
  ghost predicate SharedUpTo(m0: Memory, m: Memory, dest: Frame, src: Frame, level: nat, region: set<Frame>, i: nat) {
    && dest in m0 && src in m0 && |m0[dest]| == PTE_ENTRY_NUM && |m0[src]| == PTE_ENTRY_NUM && i <= PTE_ENTRY_NUM
    && m0.Keys <= m.Keys && Same(m0, m, m0.Keys - {dest})
    && Below(m, dest, level, region + (m.Keys - m0.Keys))
    && (forall j :: 0 <= j < i ==> EntryShared(m, m[dest][j], m0, m0[src][j], m0[dest][j], level))
    && (forall j :: i <= j < PTE_ENTRY_NUM ==> m[dest][j] == m0[dest][j])
  }

  /** One more entry: what was done before is not disturbed. */
  lemma SharedNext(m0: Memory, m: Memory, n: Memory, dest: Frame, src: Frame, level: nat, region: set<Frame>, i: nat)
    requires SharedUpTo(m0, m, dest, src, level, region, i) && i < PTE_ENTRY_NUM
    requires dest !in region && region <= m0.Keys
    requires m.Keys <= n.Keys && Same(m, n, m.Keys - {dest}) && |n[dest]| == PTE_ENTRY_NUM
    requires forall j :: 0 <= j < PTE_ENTRY_NUM && j != i ==> n[dest][j] == m[dest][j]
    requires Under(n, n[dest][i], level, region + (n.Keys - m0.Keys))
    requires EntryShared(n, n[dest][i], m0, m0[src][i], m0[dest][i], level)
    ensures SharedUpTo(m0, n, dest, src, level, region, i + 1)
  {
    var before, after := region + (m.Keys - m0.Keys), region + (n.Keys - m0.Keys);
    forall j | 0 <= j < PTE_ENTRY_NUM && j != i
      ensures Under(n, n[dest][j], level, after)
      ensures j < i ==> EntryShared(n, n[dest][j], m0, m0[src][j], m0[dest][j], level)
    {
      UnderStays(m, n, m[dest][j], level, before, after);
    }
  }

  lemma SharedWalk(m0: Memory, m: Memory, dest: Frame, src: Frame, level: nat, region: set<Frame>, path: seq<nat>)
    requires SharedUpTo(m0, m, dest, src, level, region, PTE_ENTRY_NUM) && |path| == level + 1
    ensures Walk(m, dest, path) == Shared(Walk(m0, src, path), Walk(m0, dest, path))
  {
    if path[0] < PTE_ENTRY_NUM {
      var rest := path[1..];
      assert |rest| == level;
      assert EntryShared(m, m[dest][path[0]], m0, m0[src][path[0]], m0[dest][path[0]], level);
    }
  }

  /** An entry the source has no mapping for is left as it was. */
  lemma KeptEntry(m0: Memory, m: Memory, src: Entry, was: Entry, level: nat, region: set<Frame>, dest: Frame)
    requires src.Absent? && Under(m0, was, level, region) && dest !in region && region <= m0.Keys
    requires m0.Keys <= m.Keys && Same(m0, m, m0.Keys - {dest})
    ensures EntryShared(m, was, m0, src, was, level) && Under(m, was, level, region + (m.Keys - m0.Keys))
  {
    UnderStays(m0, m, was, level, region, region + (m.Keys - m0.Keys));
  }

  lemma BelowMore(m: Memory, root: Frame, level: nat, frames: set<Frame>, more: set<Frame>)
    requires Below(m, root, level, frames) && frames <= more
    ensures Below(m, root, level, more)
  {
    forall i | 0 <= i < PTE_ENTRY_NUM ensures Under(m, m[root][i], level, more) {
      UnderStays(m, m, m[root][i], level, frames, more);
    }
  }

  lemma EmptyTable(m: Memory, page: Frame, level: nat, path: seq<nat>)
    requires page in m && m[page] == seq(PTE_ENTRY_NUM, _ => Absent(0))
    ensures Below(m, page, level, {}) && Walk(m, page, path) == None
  {
  }

  /** A new table that has all of f's mappings stands in for f. */
  lemma TableShared(m0: Memory, m1: Memory, m: Memory, page: Frame, f: Frame, level: nat, region: set<Frame>)
    requires level > 0 && m0.Keys <= m1.Keys && page !in m0 && page in m1
    requires m1[page] == seq(PTE_ENTRY_NUM, _ => Absent(0))
    requires SharedUpTo(m1, m, page, f, level - 1, {}, PTE_ENTRY_NUM)
    requires forall path :: |path| == level ==> Walk(m1, f, path) == Walk(m0, f, path)
    ensures Under(m, Table(page), level, region + (m.Keys - m0.Keys))
    ensures forall was: Entry :: was.Absent? ==> EntryShared(m, Table(page), m0, Table(f), was, level)
  {
    BelowMore(m, page, level - 1, {} + (m.Keys - m1.Keys), region + (m.Keys - m0.Keys));
    forall rest | |rest| == level ensures Walk(m, page, rest) == Walk(m0, f, rest) {
      EmptyTable(m1, page, level - 1, rest);
      SharedWalk(m1, m, page, f, level - 1, {}, rest);
    }
  }

  ghost predicate Fits(m: Memory, free: Frame) { forall f :: f in m ==> f < free }

  predicate Present(e: Entry) { !e.Absent? }

  class Tables {
    var m: Memory
    var free: Frame    // frames from here on are free

    constructor ()
      ensures m == map[] && Fits(m, free)
    {
      m, free := map[], 0;
    }

    /** A new table, linked from entry i of dest and cleared. */
    method AddPage(dest: Frame, i: nat) returns (page: Frame)
      requires Fits(m, free) && dest in m && i < |m[dest]|
      modifies this
      ensures page !in old(m) && Fits(m, free)
      ensures m == old(m)[dest := old(m)[dest][i := Table(page)]][page := seq(PTE_ENTRY_NUM, _ => Absent(0))]
    {
      page := free;
      free := free + 1;
      m := m[dest := m[dest][i := Table(page)]];
      m := m[page := seq(PTE_ENTRY_NUM, _ => Absent(0))];
    }

    /** Gives dest every mapping of src, with tables of its own: afterwards each path translates to the leaf
        src has for it, or as it did before where src has none. No other existing table changes. */
    method SharePgtable(dest: Frame, src: Frame, ghost level: nat, ghost srcFrames: set<Frame>, ghost region: set<Frame>)
      requires Fits(m, free) && dest in m && |m[dest]| == PTE_ENTRY_NUM
      requires Tree(m, src, level, srcFrames) && dest !in srcFrames && srcFrames <= m.Keys
      requires Below(m, dest, level, region) && dest !in region && region <= m.Keys
      requires src in m && |m[src]| == PTE_ENTRY_NUM
      requires forall i :: 0 <= i < PTE_ENTRY_NUM && Present(m[src][i]) ==> !Present(m[dest][i])
      modifies this
      ensures Fits(m, free) && SharedUpTo(old(m), m, dest, src, level, region, PTE_ENTRY_NUM)
      ensures forall path :: |path| == level + 1 ==>
        Walk(m, dest, path) == Shared(Walk(old(m), src, path), Walk(old(m), dest, path))
      decreases level, 1
    {
      ghost var m0 := m;
      BelowMore(m, dest, level, region, region + (m.Keys - m0.Keys));
      var i := 0;
      while i < PTE_ENTRY_NUM
        invariant 0 <= i <= PTE_ENTRY_NUM && Fits(m, free) && SharedUpTo(m0, m, dest, src, level, region, i)
      {
        ShareEntry(dest, src, i, level, srcFrames, region, m0);
        i := i + 1;
      }
      forall path | |path| == level + 1
        ensures Walk(m, dest, path) == Shared(Walk(m0, src, path), Walk(m0, dest, path))
      {
        SharedWalk(m0, m, dest, src, level, region, path);
      }
    }

    /** Sharing whole address spaces: every address translates as in the source, or as before where that has none. */
    method ShareSpace(dest: Frame, src: Frame, ghost srcFrames: set<Frame>, ghost region: set<Frame>)
      requires Fits(m, free) && dest in m && |m[dest]| == PTE_ENTRY_NUM
      requires Tree(m, src, 2, srcFrames) && dest !in srcFrames && srcFrames <= m.Keys
      requires Below(m, dest, 2, region) && dest !in region && region <= m.Keys
      requires src in m && |m[src]| == PTE_ENTRY_NUM
      requires forall i :: 0 <= i < PTE_ENTRY_NUM && Present(m[src][i]) ==> !Present(m[dest][i])
      modifies this
      ensures Fits(m, free) && Same(old(m), m, old(m).Keys - {dest})
      ensures forall va :: Translate(m, dest, va) == Shared(Translate(old(m), src, va), Translate(old(m), dest, va))
      ensures forall va :: Translate(m, src, va) == Translate(old(m), src, va)
    {
      SharePgtable(dest, src, 2, srcFrames, region);
      TreeStays(old(m), m, src, 2, srcFrames, srcFrames);
    }

    /** Shares one entry: a leaf is copied, a table gets a copy of its own. */
    method ShareEntry(dest: Frame, src: Frame, i: nat, ghost level: nat, ghost srcFrames: set<Frame>,
                      ghost region: set<Frame>, ghost m0: Memory)
      requires Fits(m, free) && i < PTE_ENTRY_NUM && SharedUpTo(m0, m, dest, src, level, region, i)
      requires Tree(m0, src, level, srcFrames) && dest !in srcFrames && srcFrames <= m0.Keys
      requires Below(m0, dest, level, region) && dest !in region && region <= m0.Keys
      requires Present(m0[src][i]) ==> !Present(m0[dest][i])
      modifies this
      ensures Fits(m, free) && SharedUpTo(m0, m, dest, src, level, region, i + 1)
      decreases level, 0
    {
      ghost var m1 := m;
      var e := m[src][i];
      assert e == m0[src][i];
      assert Below(m0, src, level, srcFrames);
      assert Under(m0, e, level, srcFrames) && Under(m0, m0[dest][i], level, region);
      match e {
        case Absent(_) =>
          KeptEntry(m0, m, e, m0[dest][i], level, region, dest);
        case Leaf(_) =>
          m := m[dest := m[dest][i := e]];
        case Table(f) =>
          ShareTable(dest, f, i, level, srcFrames, region, m0);
      }
      SharedNext(m0, m1, m, dest, src, level, region, i);
    }

    /** Gives entry i of dest a table of its own with the mappings of the source's table f. */
    method ShareTable(dest: Frame, f: Frame, i: nat, ghost level: nat, ghost srcFrames: set<Frame>,
                      ghost region: set<Frame>, ghost m0: Memory)
      requires Fits(m, free) && dest in m0 && dest in m && i < PTE_ENTRY_NUM == |m[dest]| && level > 0
      requires m0.Keys <= m.Keys && Same(m0, m, m0.Keys - {dest})
      requires Tree(m0, f, level - 1, srcFrames) && dest !in srcFrames && srcFrames <= m0.Keys
      modifies this
      ensures Fits(m, free) && old(m).Keys <= m.Keys && Same(old(m), m, old(m).Keys - {dest})
      ensures |m[dest]| == PTE_ENTRY_NUM
      ensures forall j :: 0 <= j < PTE_ENTRY_NUM && j != i ==> m[dest][j] == old(m)[dest][j]
      ensures Under(m, m[dest][i], level, region + (m.Keys - m0.Keys))
      ensures forall was: Entry :: was.Absent? ==> EntryShared(m, m[dest][i], m0, Table(f), was, level)
      decreases level - 1, 2
    {
      var page := AddPage(dest, i);
      ghost var m1 := m;
      TreeStays(m0, m1, f, level - 1, srcFrames, srcFrames);
      EmptyTable(m1, page, level - 1, []);
      SharePgtable(page, f, level - 1, srcFrames, {});
      TableShared(m0, m1, m, page, f, level, region);
    }
  }
}
