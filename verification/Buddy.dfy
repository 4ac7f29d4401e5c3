/** The kernel pool allocator: power-of-two blocks, split on demand and coalesced on release.

    A block of order k and index i occupies the bytes [i * 2^k, (i + 1) * 2^k) of the pool, so
    the blocks form a binary tree and every fact about overlap is a fact about ancestors. */
module BuddyTree {
  import opened Arith

  const MIN_ORDER := 4
  const MAX_ORDER := 22

  datatype Block = Block(order: nat, idx: nat) {
    function Off(): nat { Shl(idx, order) }
    function Size(): nat { Pow2(order) }
    function Parent(): Block { Block(order + 1, idx / 2) }
    function Buddy(): Block { Block(order, Sibling(idx)) }
    function Lo(): Block requires order > 0 { Block(order - 1, 2 * idx) }
    function Hi(): Block requires order > 0 { Block(order - 1, 2 * idx + 1) }
  }

  ghost predicate InPool(b: Block) {
    MIN_ORDER <= b.order <= MAX_ORDER && b.idx < Pow2(MAX_ORDER - b.order)
  }

  const WHOLE := Block(MAX_ORDER, 0)

  /** b is c or one of its descendants. */
  ghost predicate Within(b: Block, c: Block)
    decreases c.order - b.order
  {
    b == c || (b.order < c.order && Within(b.Parent(), c))
  }

  lemma {:induction false} WithinTrans(a: Block, b: Block, c: Block)
    requires Within(a, b) && Within(b, c)
    ensures Within(a, c)
    decreases b.order - a.order
  {
    if a != b { WithinTrans(a.Parent(), b, c); WithinOrder(b, c); }
  }

  lemma {:induction false} WithinOrder(a: Block, b: Block)
    requires Within(a, b)
    ensures a.order <= b.order
    ensures a.order == b.order ==> a == b
  {
  }

  /** Two ancestors of one block are nested. */
  lemma {:induction false} AncestorsNested(a: Block, b: Block, c: Block)
    requires Within(a, b) && Within(a, c)
    ensures Within(b, c) || Within(c, b)
    decreases b.order - a.order
  {
    if a != b && a != c { AncestorsNested(a.Parent(), b, c); }
  }

  lemma HalvesWithin(c: Block)
    requires c.order > 0
    ensures Within(c.Lo(), c) && Within(c.Hi(), c)
  {
    assert Within(c.Lo().Parent(), c);
    assert Within(c.Hi().Parent(), c);
  }

  lemma {:induction false} ProperlyWithinHalf(a: Block, c: Block)
    requires Within(a, c) && a != c
    ensures Within(a, c.Lo()) || Within(a, c.Hi())
    decreases c.order - a.order
  {
    if a.Parent() != c { ProperlyWithinHalf(a.Parent(), c); }
  }

  lemma {:induction false} WithinInPool(a: Block, c: Block)
    requires Within(a, c) && InPool(c) && MIN_ORDER <= a.order
    ensures InPool(a)
    decreases c.order - a.order
  {
    if a != c { WithinInPool(a.Parent(), c); }
  }

  lemma {:induction false} WithinWhole(a: Block)
    requires InPool(a)
    ensures Within(a, WHOLE)
    decreases MAX_ORDER - a.order
  {
    if a.order < MAX_ORDER { WithinWhole(a.Parent()); }
  }

  // ---- tilings ----

  ghost predicate Covered(T: set<Block>, u: Block) { exists b :: b in T && Within(u, b) }

  /** Every block lies in the pool, no two overlap, and every smallest unit belongs to one. */
  ghost predicate Tiling(T: set<Block>) {
    && (forall b :: b in T ==> InPool(b))
    && Antichain(T)
    && (forall u: Block :: u.order == MIN_ORDER && InPool(u) ==> Covered(T, u))
  }

  ghost predicate Antichain(T: set<Block>) {
    forall b, c :: b in T && c in T && Within(b, c) ==> b == c
  }

  lemma WholeTiles()
    ensures Tiling({WHOLE})
  {
    forall u: Block | u.order == MIN_ORDER && InPool(u) ensures Covered({WHOLE}, u) {
      WithinWhole(u);
    }
  }

  lemma SplitTiles(T: set<Block>, c: Block)
    requires Tiling(T) && c in T && c.order > MIN_ORDER
    ensures c.Lo() !in T && c.Hi() !in T
    ensures Tiling(T - {c} + {c.Lo(), c.Hi()})
  {
    var T' := T - {c} + {c.Lo(), c.Hi()};
    assert InPool(c.Lo()) && InPool(c.Hi()) by {
      HalvesWithin(c);
      WithinInPool(c.Lo(), c);
      WithinInPool(c.Hi(), c);
    }
    SplitAntichain(T, c);
    forall u: Block | u.order == MIN_ORDER && InPool(u) ensures Covered(T', u) {
      SplitCovers(T, c, u);
    }
  }

  lemma SplitCovers(T: set<Block>, c: Block, u: Block)
    requires Covered(T, u) && c.order > u.order
    ensures Covered(T - {c} + {c.Lo(), c.Hi()}, u)
  {
    var T' := T - {c} + {c.Lo(), c.Hi()};
    var b :| b in T && Within(u, b);
    if b == c {
      ProperlyWithinHalf(u, c);
      assert c.Lo() in T' && c.Hi() in T';
    } else {
      assert b in T';
    }
  }

  lemma SplitAntichain(T: set<Block>, c: Block)
    requires Antichain(T) && c in T && c.order > 0
    ensures c.Lo() !in T && c.Hi() !in T
    ensures Antichain(T - {c} + {c.Lo(), c.Hi()})
  {
    HalvesWithin(c);
    forall a, b | a in T - {c} + {c.Lo(), c.Hi()} && b in T - {c} + {c.Lo(), c.Hi()} && Within(a, b)
      ensures a == b
    {
      WithinOrder(a, b);
      if b == c.Lo() || b == c.Hi() {
        if a in T { WithinTrans(a, b, c); }
      } else if a == c.Lo() || a == c.Hi() {
        AncestorsNested(a, b, c);
      }
    }
  }

  lemma MergeTiles(T: set<Block>, c: Block)
    requires Tiling(T) && c.order > MIN_ORDER && c.Lo() in T && c.Hi() in T
    ensures c !in T && InPool(c)
    ensures Tiling(T - {c.Lo(), c.Hi()} + {c})
  {
    var T' := T - {c.Lo(), c.Hi()} + {c};
    HalvesWithin(c);
    ParentInPool(c.Lo());
    WithinOrder(c.Lo(), c);
    forall a, b | a in T' && b in T' && Within(a, b) ensures a == b {
      if a == c && b != c {
        WithinTrans(c.Lo(), c, b);
      } else if b == c && a != c {
        ProperlyWithinHalf(a, c);
      }
    }
    forall u: Block | u.order == MIN_ORDER && InPool(u) ensures Covered(T', u) {
      assert Covered(T, u);
      var b :| b in T && Within(u, b);
      if b == c.Lo() || b == c.Hi() {
        WithinTrans(u, b, c);
        assert c in T';
      } else {
        assert b in T';
      }
    }
  }

  lemma ParentInPool(b: Block)
    requires InPool(b) && b.order < MAX_ORDER
    ensures InPool(b.Parent())
  {
  }

  lemma BuddyHalves(b: Block)
    ensures {b, b.Buddy()} == {b.Parent().Lo(), b.Parent().Hi()}
    ensures b.Parent() == b.Buddy().Parent()
  {
  }

  // ---- what the allocator can serve ----

  /** No two sibling blocks are both free. */
  ghost predicate Coalesced(F: set<Block>) {
    forall b :: b in F ==> b.Buddy() !in F
  }

  /** Every smallest unit of region r is free. */
  ghost predicate WhollyFree(F: set<Block>, r: Block) {
    forall u: Block :: u.order == MIN_ORDER && Within(u, r) ==> Covered(F, u)
  }

  /** In a coalesced pool a region whose every unit is free lies inside one free block. */
  lemma {:induction false} FreeRegionInOneBlock(F: set<Block>, r: Block)
    requires Coalesced(F) && r.order >= MIN_ORDER && WhollyFree(F, r)
    requires forall b :: b in F ==> b.order >= MIN_ORDER
    ensures Covered(F, r)
    decreases r.order
  {
    if r.order > MIN_ORDER {
      HalvesWithin(r);
      forall u: Block | u.order == MIN_ORDER && (Within(u, r.Lo()) || Within(u, r.Hi()))
        ensures Covered(F, u)
      {
        if Within(u, r.Lo()) { WithinTrans(u, r.Lo(), r); } else { WithinTrans(u, r.Hi(), r); }
      }
      FreeRegionInOneBlock(F, r.Lo());
      FreeRegionInOneBlock(F, r.Hi());
      assert r.Lo().Buddy() == r.Hi();
      var lo :| lo in F && Within(r.Lo(), lo);
      var hi :| hi in F && Within(r.Hi(), hi);
      if lo != r.Lo() {
        assert Within(r, lo);
      } else if hi != r.Hi() {
        assert Within(r, hi);
      } else {
        assert false;
      }
    } else {
      assert Within(r, r);
    }
  }

  /** Some naturally aligned region of order k is wholly free. */
  ghost predicate RegionFree(F: set<Block>, k: nat) {
    exists r: Block :: r.order == k && InPool(r) && WhollyFree(F, r)
  }

  /** A block of order k can be cut out exactly when some aligned region of that order is wholly free. */
  lemma ServableIffRegionFree(F: set<Block>, k: nat)
    requires MIN_ORDER <= k <= MAX_ORDER && Coalesced(F)
    requires forall b :: b in F ==> InPool(b)
    ensures (exists b :: b in F && b.order >= k) <==> RegionFree(F, k)
  {
    if b :| b in F && b.order >= k {
      var r := LeftmostWithin(b, k);
      WithinInPool(r, b);
      forall u: Block | u.order == MIN_ORDER && Within(u, r) ensures Covered(F, u) {
        WithinTrans(u, r, b);
      }
      assert WhollyFree(F, r);
    }
    if RegionFree(F, k) {
      var r: Block :| r.order == k && InPool(r) && WhollyFree(F, r);
      FreeRegionInOneBlock(F, r);
      var b :| b in F && Within(r, b);
      WithinOrder(r, b);
    }
  }

  lemma {:induction false} LeftmostWithin(b: Block, k: nat) returns (r: Block)
    requires k <= b.order
    ensures r.order == k && Within(r, b)
    decreases b.order
  {
    if k == b.order {
      r := b;
    } else {
      r := LeftmostWithin(b.Lo(), k);
      HalvesWithin(b);
      WithinTrans(r, b.Lo(), b);
    }
  }

  ghost predicate PoolState(F: set<Block>, O: set<Block>) {
    F !! O && Tiling(F + O) && Coalesced(F)
  }

  lemma FreeBlockFreeElsewhere(F: set<Block>, F': set<Block>, O: set<Block>, b: Block)
    requires PoolState(F, O) && PoolState(F', O) && b in F
    ensures Covered(F', b)
  {
    forall u: Block | u.order == MIN_ORDER && Within(u, b) ensures Covered(F', u) {
      WithinInPool(u, b);
      assert Covered(F' + O, u);
      var c :| c in F' + O && Within(u, c);
      if c in O {
        AncestorsNested(u, b, c);
        assert false;
      }
    }
    FreeRegionInOneBlock(F', b);
  }

  /** History independence: the free blocks are determined by the outstanding ones alone. */
  lemma FreeBlocksDetermined(F: set<Block>, F': set<Block>, O: set<Block>)
    requires PoolState(F, O) && PoolState(F', O)
    ensures F == F'
  {
    FreeBlocksIncluded(F, F', O);
    FreeBlocksIncluded(F', F, O);
  }

  lemma FreeBlocksIncluded(F: set<Block>, F': set<Block>, O: set<Block>)
    requires PoolState(F, O) && PoolState(F', O)
    ensures F <= F'
  {
    forall b | b in F ensures b in F' {
      FreeBlockFreeElsewhere(F, F', O, b);
      var c :| c in F' && Within(b, c);
      FreeBlockFreeElsewhere(F', F, O, c);
      var d :| d in F && Within(c, d);
      WithinTrans(b, c, d);
      assert b in F + O && d in F + O;
      WithinOrder(b, c);
      WithinOrder(c, d);
    }
  }

  /** Once nothing is outstanding the pool is again one block of the largest order. */
  lemma AllFreedIsWhole(F: set<Block>)
    requires PoolState(F, {})
    ensures F == {WHOLE}
  {
    WholeTiles();
    assert {WHOLE} + {} == {WHOLE};
    assert PoolState({WHOLE}, {});
    FreeBlocksDetermined(F, {WHOLE}, {});
  }

  // ---- bytes ----

  ghost predicate HasByte(b: Block, x: nat) { b.Off() <= x < b.Off() + b.Size() }

  lemma {:induction false} ByteHalves(b: Block, x: nat)
    requires b.order > 0
    ensures HasByte(b, x) <==> HasByte(b.Lo(), x) || HasByte(b.Hi(), x)
    ensures !(HasByte(b.Lo(), x) && HasByte(b.Hi(), x))
  {
    ShlSucc(2 * b.idx, b.order - 1);
  }

  /** A byte lies in a block's address range exactly when its 16-byte unit descends from the block. */
  lemma {:induction false} ByteIffWithin(b: Block, x: nat)
    requires b.order >= MIN_ORDER
    ensures HasByte(b, x) <==> Within(Block(MIN_ORDER, x / 16), b)
    decreases b.order
  {
    var u := Block(MIN_ORDER, x / 16);
    if b.order == MIN_ORDER {
      assert Pow2(4) == 16;
    } else {
      ByteHalves(b, x);
      ByteIffWithin(b.Lo(), x);
      ByteIffWithin(b.Hi(), x);
      HalvesWithin(b);
      if Within(u, b.Lo()) { WithinTrans(u, b.Lo(), b); }
      if Within(u, b.Hi()) { WithinTrans(u, b.Hi(), b); }
      if Within(u, b) { ProperlyWithinHalf(u, b); }
    }
  }

  /** In a tiling every pool byte belongs to exactly one block's address range. */
  lemma TilingPartitionsBytes(T: set<Block>, x: nat)
    requires Tiling(T) && x < Pow2(MAX_ORDER)
    ensures exists b :: b in T && HasByte(b, x)
    ensures forall b, c :: b in T && c in T && HasByte(b, x) && HasByte(c, x) ==> b == c
  {
    var u := Block(MIN_ORDER, x / 16);
    ShlZero(MAX_ORDER);
    ByteIffWithin(WHOLE, x);
    WithinInPool(u, WHOLE);
    assert Covered(T, u);
    var b :| b in T && Within(u, b);
    ByteIffWithin(b, x);
    forall b, c | b in T && c in T && HasByte(b, x) && HasByte(c, x) ensures b == c {
      ByteIffWithin(b, x);
      ByteIffWithin(c, x);
      AncestorsNested(u, b, c);
    }
  }
}
