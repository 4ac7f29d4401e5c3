/** kmalloc and kfree over the pool: free lists of addresses, block headers, and the split and
    merge loops, proved to keep the pool a coalesced tiling. */
module Kmalloc {
  import opened Common
  import opened Arith
  import opened BuddyTree

  const HEADER_SIZE := 8
  const HEADER_MAGIC := 0xC0DECAFE
  const MIN_BLOCK_SIZE := 16
  const SIZE_LIMIT := 0x1_0000_0000_0000_0000

  datatype Header = Header(order: nat, magic: nat)

  /** Bytes a request needs, header included; the 64-bit sum may wrap. */
  function Total(size: nat): nat {
    var total := (size + HEADER_SIZE) % SIZE_LIMIT;
    if total < MIN_BLOCK_SIZE then MIN_BLOCK_SIZE else total
  }

  /** Least order from k up whose blocks hold total bytes, or MAX_ORDER + 1. */
  function OrderFrom(total: nat, k: nat): (order: nat)
    requires MIN_ORDER <= k <= MAX_ORDER + 1
    ensures k <= order <= MAX_ORDER + 1
    ensures order <= MAX_ORDER ==> total <= Pow2(order)
    ensures forall j :: k <= j < order ==> Pow2(j) < total
    decreases MAX_ORDER + 1 - k
  {
    if k > MAX_ORDER || total <= Pow2(k) then k else OrderFrom(total, k + 1)
  }

  function OrderFor(size: nat): nat { OrderFrom(Total(size), MIN_ORDER) }

  lemma PoolBytes()
    ensures Pow2(MAX_ORDER) == 0x40_0000
  {
    assert Pow2(4) == 16;
    assert Pow2(8) == 16 * Pow2(4);
    assert Pow2(12) == 16 * Pow2(8);
    assert Pow2(16) == 16 * Pow2(12);
    assert Pow2(20) == 16 * Pow2(16);
  }

  /** Blocks of 2^k bytes are the smallest, from sixteen up, that hold a request and its header. */
  ghost predicate SmallestFor(size: nat, k: nat) {
    4 <= k <= 22 && size + 8 <= Pow2(k) && forall j :: 4 <= j < k ==> Pow2(j) < size + 8
  }

  /** The order chosen is the smallest that fits, if any does; a size that wraps is given sixteen bytes. */
  lemma OrderIsSmallest(size: nat)
    requires 0 < size < 0x1_0000_0000_0000_0000
    ensures size + 8 < 0x1_0000_0000_0000_0000 ==>
      && (OrderFor(size) <= 22 <==> SmallestFor(size, OrderFor(size)))
      && forall k :: SmallestFor(size, k) ==> k == OrderFor(size)
    ensures size + 8 >= 0x1_0000_0000_0000_0000 ==> OrderFor(size) == 4
  {
    assert Pow2(4) == 16;
    var o := OrderFor(size);
    if size + 8 < SIZE_LIMIT {
      assert forall j :: 4 <= j < o ==> Pow2(j) < Total(size);
    }
  }

  /** A granted block holds the header and the whole request exactly when the size did not wrap. */
  lemma RequestFitsIffNoWrap(size: nat)
    requires 0 < size < SIZE_LIMIT && OrderFor(size) <= MAX_ORDER
    ensures HEADER_SIZE + size <= Pow2(OrderFor(size)) <==> size + HEADER_SIZE < SIZE_LIMIT
  {
    Pow2Monotone(OrderFor(size), MAX_ORDER);
    PoolBytes();
  }

  /** The largest sizes do wrap: the request is granted sixteen bytes. */
  lemma WrappedRequestIsTiny()
    ensures OrderFor(SIZE_LIMIT - 8) == MIN_ORDER
  {
    assert Pow2(4) == 16;
  }

  ghost function FreeSet(lists: seq<seq<Block>>): set<Block> {
    set o, b | 0 <= o < |lists| && b in lists[o] :: b
  }

  ghost predicate Filed(lists: seq<seq<Block>>) {
    && |lists| == MAX_ORDER - MIN_ORDER + 1
    && (forall o, b :: 0 <= o < |lists| && b in lists[o] ==> b.order == o + MIN_ORDER)
    && (forall o :: 0 <= o < |lists| ==> Distinct(lists[o]))
  }

  lemma PushFiled(lists: seq<seq<Block>>, o: nat, b: Block)
    requires Filed(lists) && o < |lists| && b.order == o + MIN_ORDER && b !in FreeSet(lists)
    ensures Filed(lists[o := [b] + lists[o]])
    ensures FreeSet(lists[o := [b] + lists[o]]) == FreeSet(lists) + {b}
  {
    var lists' := lists[o := [b] + lists[o]];
    assert b in lists'[o];
    forall c | c in lists[o] ensures c in FreeSet(lists) {}
    forall c ensures c in FreeSet(lists') <==> c in FreeSet(lists) + {b} {
      if o', c' :| 0 <= o' < |lists| && c' in lists[o'] && c' == c { assert c in lists'[o']; }
    }
  }

  lemma RemoveFiled(lists: seq<seq<Block>>, o: nat, j: nat)
    requires Filed(lists) && o < |lists| && j < |lists[o]|
    ensures Filed(lists[o := Without(lists[o], j)])
    ensures FreeSet(lists[o := Without(lists[o], j)]) == FreeSet(lists) - {lists[o][j]}
  {
    var b := lists[o][j];
    var rest := Without(lists[o], j);
    var lists' := lists[o := rest];
    forall c ensures c in rest <==> c in lists[o] && c != b {
      if c in lists[o] && c != b {
        var i :| 0 <= i < |lists[o]| && lists[o][i] == c;
        assert rest[if i < j then i else i - 1] == c;
      }
    }
    forall c ensures c in FreeSet(lists') <==> c in FreeSet(lists) - {b} {
      if o', c' :| 0 <= o' < |lists| && c' in lists[o'] && c' == c && c != b { assert c in lists'[o']; }
      if o', c' :| 0 <= o' < |lists| && c' in lists'[o'] && c' == c { assert c in lists[o']; }
    }
  }

  /** Two blocks of one tiling that start at the same byte are the same block. */
  lemma SameStart(T: set<Block>, b: Block, c: Block)
    requires Tiling(T) && b in T && c in T && b.Off() == c.Off()
    ensures b == c
  {
    InsidePool(b);
    TilingPartitionsBytes(T, b.Off());
    assert HasByte(b, b.Off()) && HasByte(c, b.Off());
  }

  lemma InsidePool(b: Block)
    requires InPool(b)
    ensures b.Off() + b.Size() <= Pow2(MAX_ORDER)
  {
    var x := b.Off() + b.Size() - 1;
    ByteIffWithin(b, x);
    WithinWhole(b);
    WithinTrans(Block(MIN_ORDER, x / 16), b, WHOLE);
    ByteIffWithin(WHOLE, x);
    ShlZero(MAX_ORDER);
  }

  /** The address lists hold the addresses of the blocks on the block lists. */
  ghost predicate MirrorsOf(base: nat, free: seq<seq<nat>>, lists: seq<seq<Block>>) {
    && base > 0
    && Filed(lists)
    && |free| == |lists|
    && (forall o :: 0 <= o < |lists| ==> |free[o]| == |lists[o]|)
    && (forall o, j :: 0 <= o < |lists| && 0 <= j < |lists[o]| ==> free[o][j] == base + lists[o][j].Off())
  }

  /** Where x first stands in s, or |s|. */
  function Index(s: seq<nat>, x: nat): (j: nat)
    ensures j <= |s| && (j < |s| ==> s[j] == x)
    ensures forall i :: 0 <= i < j ==> s[i] != x
  {
    if s == [] || s[0] == x then 0 else 1 + Index(s[1..], x)
  }

  /** The lists and the block in hand while a block is being freed. */
  datatype Hand = Hand(free: seq<seq<nat>>, addr: nat, order: nat) {
    predicate Ok() { |free| == MAX_ORDER - MIN_ORDER + 1 && MIN_ORDER <= order <= MAX_ORDER }

    predicate Holds(x: nat) { addr <= x < addr + Pow2(order) }
  }

  /** Gives the address of a block's buddy from the block's address and order. */
  type Buddying = (nat, nat) -> nat

  /** The list entry for the block's buddy is found. */
  predicate CanJoin(buddy: Buddying, h: Hand)
    requires h.Ok()
  {
    h.order < MAX_ORDER && Index(h.free[h.order - MIN_ORDER], buddy(h.addr, h.order)) < |h.free[h.order - MIN_ORDER]|
  }

  /** The buddy leaves its list and the joined block is in hand. */
  function Joined(buddy: Buddying, h: Hand): Hand
    requires h.Ok() && CanJoin(buddy, h)
  {
    var idx := h.order - MIN_ORDER;
    var a := buddy(h.addr, h.order);
    Hand(h.free[idx := Without(h.free[idx], Index(h.free[idx], a))], if a < h.addr then a else h.addr, h.order + 1)
  }

  /** Joining as long as the buddy is found. */
  function Coalesce(buddy: Buddying, h: Hand): (r: Hand)
    requires h.Ok()
    ensures r.Ok() && h.order <= r.order && !CanJoin(buddy, r)
    decreases MAX_ORDER - h.order
  {
    if CanJoin(buddy, h) then Coalesce(buddy, Joined(buddy, h)) else h
  }

  /** The lists with the block in hand put on its list. */
  function Placed(h: Hand): seq<seq<nat>>
    requires h.Ok()
  {
    h.free[h.order - MIN_ORDER := [h.addr] + h.free[h.order - MIN_ORDER]]
  }

  /** The buddy lies on the one side of the block or on the other. */
  ghost predicate Beside(buddy: Buddying) {
    forall a: nat, o: nat :: buddy(a, o) == a + Pow2(o) || buddy(a, o) == a - Pow2(o)
  }

  /** On aligned blocks it is the buddy of the tree. */
  ghost predicate Siblings(buddy: Buddying, base: nat) {
    forall b: Block :: SiblingAt(buddy, base, b)
  }

  ghost predicate SiblingAt(buddy: Buddying, base: nat, b: Block) {
    buddy(base + b.Off(), b.order) == base + b.Buddy().Off()
  }

  /** How merge_block finds a buddy: it flips the bit of the size in the offset. */
  function BuddyAddr(base: nat, a: nat, o: nat): nat {
    if a >= base then base + Xor(a - base, Pow2(o)) else a + Pow2(o)
  }

  function BuddyAt(base: nat): Buddying { (a: nat, o: nat) => BuddyAddr(base, a, o) }

  lemma BuddyAtFits(base: nat)
    ensures Beside(BuddyAt(base)) && Siblings(BuddyAt(base), base)
  {
    forall a: nat, o: nat ensures BuddyAt(base)(a, o) == a + Pow2(o) || BuddyAt(base)(a, o) == a - Pow2(o) {
      if a >= base { XorToggle(a - base, o); }
    }
    forall b: Block ensures SiblingAt(BuddyAt(base), base, b) {
      XorSibling(b.idx, b.order);
    }
  }

  /** One join: the block in hand still holds the byte. */
  lemma JoinedHolds(buddy: Buddying, h: Hand, x: nat)
    requires h.Ok() && Beside(buddy) && CanJoin(buddy, h) && h.Holds(x)
    ensures Joined(buddy, h).Holds(x)
  {
  }

  /** The buddy taken off its list does not hold the byte, so an entry that does stays. */
  lemma JoinedLists(buddy: Buddying, h: Hand, x: nat, o: nat, y: nat)
    requires h.Ok() && Beside(buddy) && CanJoin(buddy, h) && h.Holds(x)
    requires o < |h.free| && y in h.free[o] && y <= x < y + Pow2(o + MIN_ORDER)
    ensures y in Joined(buddy, h).free[o]
  {
    var idx := h.order - MIN_ORDER;
    if o == idx {
      var j := Index(h.free[idx], buddy(h.addr, h.order));
      var i :| 0 <= i < |h.free[o]| && h.free[o][i] == y;
      assert Joined(buddy, h).free[o][if i < j then i else i - 1] == y;
    }
  }

  lemma {:induction false} CoalesceHolds(buddy: Buddying, h: Hand, x: nat)
    requires h.Ok() && Beside(buddy) && h.Holds(x)
    ensures Coalesce(buddy, h).Holds(x)
    decreases MAX_ORDER - h.order
  {
    if CanJoin(buddy, h) {
      JoinedHolds(buddy, h, x);
      CoalesceHolds(buddy, Joined(buddy, h), x);
    }
  }

  lemma {:induction false} CoalesceLists(buddy: Buddying, h: Hand, x: nat, o: nat, y: nat)
    requires h.Ok() && Beside(buddy) && h.Holds(x)
    requires o < |h.free| && y in h.free[o] && y <= x < y + Pow2(o + MIN_ORDER)
    ensures y in Coalesce(buddy, h).free[o]
    decreases MAX_ORDER - h.order
  {
    if CanJoin(buddy, h) {
      JoinedHolds(buddy, h, x);
      JoinedLists(buddy, h, x, o, y);
      CoalesceLists(buddy, Joined(buddy, h), x, o, y);
    }
  }

  /** A free block is on the list of its order. */
  lemma ListedAt(base: nat, free: seq<seq<nat>>, lists: seq<seq<Block>>, c: Block)
    requires MirrorsOf(base, free, lists) && c in FreeSet(lists)
    ensures MIN_ORDER <= c.order <= MAX_ORDER && base + c.Off() in free[c.order - MIN_ORDER]
  {
    var o :| 0 <= o < |lists| && c in lists[o];
    var j :| 0 <= j < |lists[o]| && lists[o][j] == c;
    assert free[o][j] == base + c.Off();
  }

  lemma NotListed(base: nat, free: seq<seq<nat>>, lists: seq<seq<Block>>, c: Block)
    requires MirrorsOf(base, free, lists) && MIN_ORDER <= c.order <= MAX_ORDER
    requires base + c.Off() !in free[c.order - MIN_ORDER]
    ensures c !in FreeSet(lists)
  {
    if c in FreeSet(lists) { ListedAt(base, free, lists, c); }
  }

  /** The block in hand is b, and the lists are those of a pool in which b and `out` are not free. */
  ghost predicate InHand(base: nat, h: Hand, lists: seq<seq<Block>>, out: set<Block>, b: Block) {
    && h.Ok() && MirrorsOf(base, h.free, lists) && h.addr == base + b.Off() && h.order == b.order
    && PoolState(FreeSet(lists), out + {b}) && b !in out
  }

  lemma JoinedInHand(buddy: Buddying, base: nat, h: Hand, lists: seq<seq<Block>>, out: set<Block>, b: Block)
    returns (lists': seq<seq<Block>>)
    requires Siblings(buddy, base) && InHand(base, h, lists, out, b) && CanJoin(buddy, h)
    ensures InHand(base, Joined(buddy, h), lists', out, b.Parent())
  {
    var idx := b.order - MIN_ORDER;
    var j := Index(h.free[idx], buddy(h.addr, h.order));
    assert SiblingAt(buddy, base, b);
    assert h.free[idx][j] == base + b.Buddy().Off();
    ShlInjective(lists[idx][j].idx, b.Buddy().idx, b.order);
    assert lists[idx][j] in lists[idx];
    MergeState(lists, out, b, j);
    RemoveFiled(lists, idx, j);
    MergedStart(b);
    lists' := lists[idx := Without(lists[idx], j)];
  }

  lemma PlacedSound(buddy: Buddying, base: nat, h: Hand, lists: seq<seq<Block>>, out: set<Block>, b: Block)
    returns (lists': seq<seq<Block>>)
    requires Siblings(buddy, base) && InHand(base, h, lists, out, b) && !CanJoin(buddy, h)
    ensures MirrorsOf(base, Placed(h), lists') && PoolState(FreeSet(lists'), out)
    ensures forall c :: c in out ==> base + c.Off() != h.addr
  {
    var idx := b.order - MIN_ORDER;
    BuddyNotFree(buddy, base, h, lists, out, b);
    PlaceState(FreeSet(lists), out, b);
    PushFiled(lists, idx, b);
    lists' := lists[idx := [b] + lists[idx]];
    forall c | c in out ensures c.Off() != b.Off() {
      if c.Off() == b.Off() { SameStart(FreeSet(lists) + (out + {b}), b, c); }
    }
  }

  /** A buddy not found on its list is not free; the whole pool has none. */
  lemma BuddyNotFree(buddy: Buddying, base: nat, h: Hand, lists: seq<seq<Block>>, out: set<Block>, b: Block)
    requires Siblings(buddy, base) && InHand(base, h, lists, out, b) && !CanJoin(buddy, h)
    ensures b.Buddy() !in FreeSet(lists)
  {
    assert SiblingAt(buddy, base, b);
    if b.order < MAX_ORDER { NotListed(base, h.free, lists, b.Buddy()); }
  }

  /** Freeing a block that was outstanding leaves the lists of a sound pool, and no header is overwritten. */
  lemma {:induction false} GenuineFree(buddy: Buddying, base: nat, h: Hand, lists: seq<seq<Block>>, out: set<Block>,
                                       b: Block)
    returns (lists': seq<seq<Block>>)
    requires Siblings(buddy, base) && InHand(base, h, lists, out, b)
    ensures MirrorsOf(base, Placed(Coalesce(buddy, h)), lists') && PoolState(FreeSet(lists'), out)
    ensures forall c :: c in out ==> base + c.Off() != Coalesce(buddy, h).addr
    decreases MAX_ORDER - h.order
  {
    if CanJoin(buddy, h) {
      var joined := JoinedInHand(buddy, base, h, lists, out, b);
      lists' := GenuineFree(buddy, base, Joined(buddy, h), joined, out, b.Parent());
    } else {
      lists' := PlacedSound(buddy, base, h, lists, out, b);
    }
  }

  /** Freeing any other address of the pool, whatever its word reads as, leaves lists no sound pool has: the
      block put on a list overlaps the block that holds the address. */
  lemma ForgedUnsound(buddy: Buddying, base: nat, h: Hand, lists: seq<seq<Block>>, out: set<Block>,
                      lists': seq<seq<Block>>)
    requires Beside(buddy) && h.Ok() && MirrorsOf(base, h.free, lists) && PoolState(FreeSet(lists), out)
    requires base <= h.addr < base + Pow2(MAX_ORDER)
    requires MirrorsOf(base, Placed(Coalesce(buddy, h)), lists')
    ensures !PoolState(FreeSet(lists'), out)
  {
    var x := h.addr - base;
    TilingPartitionsBytes(FreeSet(lists) + out, x);
    var c :| c in FreeSet(lists) + out && HasByte(c, x);
    if c in FreeSet(lists) { StillListed(buddy, base, h, lists, c); }
    CoalesceHolds(buddy, h, h.addr);
    PlacedOver(base, Coalesce(buddy, h), lists', out, c, x);
  }

  /** A block put on a list over a block that is listed or outstanding. */
  lemma PlacedOver(base: nat, r: Hand, lists': seq<seq<Block>>, out: set<Block>, c: Block, x: nat)
    requires r.Ok() && MirrorsOf(base, Placed(r), lists') && r.Holds(base + x) && HasByte(c, x)
    requires c in out || (MIN_ORDER <= c.order <= MAX_ORDER && base + c.Off() in r.free[c.order - MIN_ORDER])
    ensures !PoolState(FreeSet(lists'), out)
  {
    var p := lists'[r.order - MIN_ORDER][0];
    assert p in lists'[r.order - MIN_ORDER] && p in FreeSet(lists');
    assert Placed(r)[r.order - MIN_ORDER][0] == base + p.Off();
    assert HasByte(p, x);
    if c !in out { Relisted(base, r, lists', c); }
    if p != c { Overlap(FreeSet(lists') + out, p, c, x); }
  }

  lemma Overlap(T: set<Block>, p: Block, c: Block, x: nat)
    requires p in T && c in T && p != c && HasByte(p, x) && HasByte(c, x)
    ensures !Tiling(T)
  {
    if Tiling(T) {
      InsidePool(p);
      TilingPartitionsBytes(T, x);
    }
  }

  /** A free block that holds the address being freed stays on its list. */
  lemma StillListed(buddy: Buddying, base: nat, h: Hand, lists: seq<seq<Block>>, c: Block)
    requires Beside(buddy) && h.Ok() && MirrorsOf(base, h.free, lists) && base <= h.addr
    requires c in FreeSet(lists) && HasByte(c, h.addr - base)
    ensures MIN_ORDER <= c.order <= MAX_ORDER && base + c.Off() in Coalesce(buddy, h).free[c.order - MIN_ORDER]
  {
    ListedAt(base, h.free, lists, c);
    CoalesceLists(buddy, h, h.addr, c.order - MIN_ORDER, base + c.Off());
  }

  /** A block listed before the block in hand was put on a list is listed after it, and is another block. */
  lemma Relisted(base: nat, r: Hand, lists': seq<seq<Block>>, c: Block)
    requires r.Ok() && MirrorsOf(base, Placed(r), lists')
    requires MIN_ORDER <= c.order <= MAX_ORDER && base + c.Off() in r.free[c.order - MIN_ORDER]
    ensures c in FreeSet(lists') && c != lists'[r.order - MIN_ORDER][0]
  {
    var k := c.order - MIN_ORDER;
    var i :| 0 <= i < |r.free[k]| && r.free[k][i] == base + c.Off();
    var i' := if c.order == r.order then i + 1 else i;
    var d := lists'[k][i'];
    assert d in lists'[k] && Placed(r)[k][i'] == r.free[k][i];
    ShlInjective(d.idx, c.idx, c.order);
    assert lists'[r.order - MIN_ORDER][0] in lists'[r.order - MIN_ORDER];
  }

  lemma SizeForty()
    ensures OrderFor(40) == 6 && Pow2(6) == 64
  {
    assert Pow2(4) == 16 && Pow2(5) == 32;
  }

  lemma TailSet(blocks: seq<Block>)
    requires blocks != [] && Distinct(blocks)
    ensures Distinct(blocks[1..]) && (set b | b in blocks) - {blocks[0]} == set b | b in blocks[1..]
  {
    assert blocks == [blocks[0]] + blocks[1..];
  }

  lemma HalfOffsets(b: Block)
    requires b.order > 0
    ensures b.Lo().Off() == b.Off() && b.Hi().Off() == b.Off() + Pow2(b.order - 1)
  {
    ShlSucc(2 * b.idx, b.order - 1);
  }

  /** The joined block starts at the lower of the two halves. */
  lemma MergedStart(b: Block)
    ensures b.Parent().Off() == if b.Buddy().Off() < b.Off() then b.Buddy().Off() else b.Off()
  {
    HalfOffsets(b.Parent());
  }

  /** One split step: the upper half becomes free, the lower half stays in hand. */
  lemma SplitState(lists: seq<seq<Block>>, out: set<Block>, b: Block)
    requires Filed(lists) && b !in out && MIN_ORDER < b.order <= MAX_ORDER
    requires PoolState(FreeSet(lists), out + {b}) && lists[b.order - 1 - MIN_ORDER] == []
    ensures b.Lo() !in out && b.Hi() !in FreeSet(lists)
    ensures PoolState(FreeSet(lists) + {b.Hi()}, out + {b.Lo()})
  {
    var F := FreeSet(lists);
    SplitTiles(F + (out + {b}), b);
    assert F + (out + {b}) - {b} + {b.Lo(), b.Hi()} == (F + {b.Hi()}) + (out + {b.Lo()});
    forall c | c in F ensures c.order != b.order - 1 {
      var o :| 0 <= o < |lists| && c in lists[o];
    }
  }

  /** One merge step: the block in hand and its free buddy become their parent, in hand. */
  lemma MergeState(lists: seq<seq<Block>>, out: set<Block>, b: Block, j: nat)
    requires Filed(lists) && b !in out && MIN_ORDER <= b.order < MAX_ORDER
    requires PoolState(FreeSet(lists), out + {b})
    requires j < |lists[b.order - MIN_ORDER]| && lists[b.order - MIN_ORDER][j] == b.Buddy()
    ensures b.Parent() !in out
    ensures PoolState(FreeSet(lists) - {b.Buddy()}, out + {b.Parent()})
  {
    var F := FreeSet(lists);
    assert b.Buddy() in lists[b.order - MIN_ORDER];
    assert b.Buddy() in F;
    BuddyHalves(b);
    var c := b.Parent();
    assert c.Lo() in {b, b.Buddy()} && c.Hi() in {b, b.Buddy()};
    MergeTiles(F + (out + {b}), c);
    assert F + (out + {b}) - {c.Lo(), c.Hi()} + {c} == (F - {b.Buddy()}) + (out + {c});
  }

  /** Filing a block whose buddy is not free keeps the pool coalesced. */
  lemma PlaceState(F: set<Block>, out: set<Block>, b: Block)
    requires b !in out && PoolState(F, out + {b}) && b.Buddy() !in F
    ensures PoolState(F + {b}, out) && b !in F
  {
    assert (F + {b}) + out == F + (out + {b});
    forall c | c in F + {b} ensures c.Buddy() !in F + {b} {
      assert c.Buddy().Buddy() == c;
    }
  }

  class Pool {
    const base: nat
    var free: seq<seq<nat>>
    var header: map<nat, Header>
    ghost var lists: seq<seq<Block>>
    ghost var out: set<Block>

    ghost function Addr(b: Block): nat { base + b.Off() }

    ghost predicate Mirrors()
      reads this
    {
      MirrorsOf(base, free, lists)
    }

    /** An outstanding block starts with its header; what any other word reads as is up to whoever wrote it. */
    ghost predicate HeadersMatch()
      reads this
    {
      forall b :: b in out ==> Addr(b) in header && header[Addr(b)] == Header(b.order, HEADER_MAGIC)
    }

    ghost predicate Valid()
      reads this
    {
      Mirrors() && HeadersMatch() && PoolState(FreeSet(lists), out)
    }

    constructor (poolBase: nat)
      requires poolBase > 0
      ensures Valid() && base == poolBase && out == {} && FreeSet(lists) == {WHOLE}
    {
      base := poolBase;
      free := seq(19, _ => [])[18 := [poolBase]];
      lists := seq(19, _ => [])[18 := [WHOLE]];
      header := map[];
      out := {};
      new;
      ShlZero(MAX_ORDER);
      assert WHOLE in lists[18];
      assert forall o, b :: 0 <= o < 19 && b in lists[o] ==> b == WHOLE;
      assert FreeSet(lists) == {WHOLE};
      WholeTiles();
      assert {WHOLE} + {} == {WHOLE};
    }

    method PushBlock(order: nat, addr: nat, ghost b: Block)
      requires Mirrors() && MIN_ORDER <= order <= MAX_ORDER
      requires b.order == order && addr == Addr(b) && b !in FreeSet(lists)
      modifies this`free, this`lists, this`header
      ensures Mirrors() && FreeSet(lists) == old(FreeSet(lists)) + {b}
      ensures lists == old(lists)[order - MIN_ORDER := [b] + old(lists)[order - MIN_ORDER]]
      ensures header == old(header) - {addr}
    {
      var idx := order - MIN_ORDER;
      PushFiled(lists, idx, b);
      free := free[idx := [addr] + free[idx]];
      lists := lists[idx := [b] + lists[idx]];
      header := header - {addr};
    }

    method PopBlock(order: nat) returns (addr: nat, ghost b: Block)
      requires Mirrors() && MIN_ORDER <= order <= MAX_ORDER
      modifies this`free, this`lists
      ensures Mirrors()
      ensures addr == 0 <==> old(lists)[order - MIN_ORDER] == []
      ensures addr == 0 ==> lists == old(lists) && free == old(free)
      ensures addr != 0 ==> b.order == order && addr == Addr(b) && b in old(FreeSet(lists))
      ensures addr != 0 ==> FreeSet(lists) == old(FreeSet(lists)) - {b}
      ensures addr != 0 ==> forall o :: 0 <= o < order - MIN_ORDER ==> lists[o] == old(lists)[o]
    {
      var idx := order - MIN_ORDER;
      b := WHOLE;
      if free[idx] == [] {
        addr := 0;
      } else {
        addr, b := free[idx][0], lists[idx][0];
        RemoveFiled(lists, idx, 0);
        assert b in lists[idx];
        free := free[idx := Without(free[idx], 0)];
        lists := lists[idx := Without(lists[idx], 0)];
      }
    }

    /** Cuts a block of the given order out of the smallest free block that can hold it. */
    method AcquireBlock(order: nat) returns (addr: nat, ghost b: Block)
      requires Valid() && MIN_ORDER <= order <= MAX_ORDER
      modifies this`free, this`lists, this`header
      ensures Mirrors()
      ensures addr == 0 <==> !(exists c :: c in old(FreeSet(lists)) && c.order >= order)
      ensures addr == 0 ==> Valid() && free == old(free) && header == old(header)
      ensures addr != 0 ==> b.order == order && addr == Addr(b) && b !in out
      ensures addr != 0 ==> HeadersMatch() && PoolState(FreeSet(lists), out + {b})
    {
      var cur := order;
      addr := 0;
      b := WHOLE;
      while cur <= MAX_ORDER
        invariant order <= cur <= MAX_ORDER + 1
        invariant Valid() && lists == old(lists) && free == old(free) && header == old(header)
        invariant forall o :: order - MIN_ORDER <= o < cur - MIN_ORDER ==> lists[o] == []
      {
        ghost var F := FreeSet(lists);
        addr, b := PopBlock(cur);
        if addr != 0 {
          assert PoolState(FreeSet(lists), out + {b}) by {
            assert FreeSet(lists) + (out + {b}) == F + out;
          }
          addr, b := SplitDown(order, cur, addr, b);
          return;
        }
        cur := cur + 1;
      }
      addr := 0;
      forall c | c in FreeSet(lists) ensures c.order < order {
        var o :| 0 <= o < |lists| && c in lists[o];
      }
    }

    /** Halves the popped block until it has the wanted order, freeing each upper half. */
    method SplitDown(order: nat, from: nat, start: nat, ghost top: Block) returns (addr: nat, ghost b: Block)
      requires Mirrors() && HeadersMatch() && MIN_ORDER <= order <= from <= MAX_ORDER
      requires top.order == from && start == Addr(top) && top !in out
      requires PoolState(FreeSet(lists), out + {top})
      requires forall o :: order - MIN_ORDER <= o < from - MIN_ORDER ==> lists[o] == []
      modifies this`free, this`lists, this`header
      ensures Mirrors() && HeadersMatch()
      ensures b.order == order && addr == Addr(b) == start && b !in out
      ensures PoolState(FreeSet(lists), out + {b})
    {
      var cur := from;
      addr, b := start, top;
      while cur > order
        invariant order <= cur <= from && Mirrors() && HeadersMatch()
        invariant b.order == cur && addr == Addr(b) == start && b !in out
        invariant PoolState(FreeSet(lists), out + {b})
        invariant forall o :: order - MIN_ORDER <= o < cur - MIN_ORDER ==> lists[o] == []
      {
        cur := cur - 1;
        FreeUpperHalf(cur, addr, b);
        b := b.Lo();
      }
    }

    method FreeUpperHalf(cur: nat, addr: nat, ghost b: Block)
      requires Mirrors() && HeadersMatch() && MIN_ORDER <= cur < MAX_ORDER
      requires b.order == cur + 1 && addr == Addr(b) && b !in out
      requires PoolState(FreeSet(lists), out + {b}) && lists[cur - MIN_ORDER] == []
      modifies this`free, this`lists, this`header
      ensures Mirrors() && HeadersMatch()
      ensures Addr(b.Lo()) == addr && b.Lo() !in out && PoolState(FreeSet(lists), out + {b.Lo()})
      ensures forall o :: 0 <= o < cur - MIN_ORDER ==> lists[o] == old(lists)[o]
    {
      var buddy := addr + Pow2(cur);
      SplitState(lists, out, b);
      HalfOffsets(b);
      HeaderNotAt(b.Hi(), FreeSet(lists) + {b.Hi()}, out + {b.Lo()});
      PushBlock(cur, buddy, b.Hi());
    }

    /** No outstanding header can sit at the address of a block that is free. */
    lemma HeaderNotAt(f: Block, F: set<Block>, O: set<Block>)
      requires PoolState(F, O) && out <= O && f in F
      ensures forall b :: b in out ==> Addr(b) != Addr(f)
    {
      forall b | b in out ensures Addr(b) != Addr(f) {
        if Addr(b) == Addr(f) { SameStart(F + O, b, f); }
      }
    }

    /** Puts a block on a list, first joining it with its buddy as long as the buddy's address is found. */
    method MergeBlock(addr0: nat, order0: nat)
      requires Hand(free, addr0, order0).Ok()
      modifies this`free, this`header
      ensures var r := Coalesce(BuddyAt(base), Hand(old(free), addr0, order0));
        free == Placed(r) && header == old(header) - {r.addr}
    {
      var addr: nat, order: nat := addr0, order0;
      ghost var buddy, hand := BuddyAt(base), Hand(free, addr, order);
      ghost var r := Coalesce(buddy, hand);
      var joined := true;
      while order < MAX_ORDER && joined
        invariant hand == Hand(free, addr, order) && hand.Ok() && header == old(header)
        invariant Coalesce(buddy, hand) == r
        invariant !joined ==> hand == r
        decreases MAX_ORDER - order, joined
      {
        joined, addr := JoinBuddy(addr, order);
        if CanJoin(buddy, hand) { hand := Joined(buddy, hand); }
        if joined {
          order := order + 1;
        }
      }
      free := free[order - MIN_ORDER := [addr] + free[order - MIN_ORDER]];
      header := header - {addr};
    }

    /** Takes the buddy off its list if it is there; the joined block starts at the lower address. */
    method JoinBuddy(addr0: nat, order: nat) returns (joined: bool, addr: nat)
      requires Hand(free, addr0, order).Ok() && order < MAX_ORDER
      modifies this`free
      ensures joined == CanJoin(BuddyAt(base), Hand(old(free), addr0, order))
      ensures if joined then Hand(free, addr, order + 1) == Joined(BuddyAt(base), Hand(old(free), addr0, order))
              else free == old(free) && addr == addr0
    {
      var buddy := BuddyAddr(base, addr0, order);
      var idx := order - MIN_ORDER;
      var j := FindAddr(free[idx], buddy);
      joined, addr := j < |free[idx]|, addr0;
      if joined {
        free := free[idx := Without(free[idx], j)];
        if buddy < addr { addr := buddy; }
      }
    }

    /** Walks one free list looking for an address. */
    method FindAddr(list: seq<nat>, target: nat) returns (j: nat)
      ensures j == Index(list, target)
    {
      j := 0;
      while j < |list| && list[j] != target
        invariant j <= |list| && j + Index(list[j..], target) == Index(list, target)
      {
        assert list[j..][1..] == list[j + 1..];
        j := j + 1;
      }
    }

    /** Grants a block of the smallest order that holds the request and its header, or nothing exactly when the size
        is zero, no order is large enough, or no aligned region of that order is wholly free. */
    method Kmalloc(size: nat) returns (p: nat, ghost b: Block)
      requires Valid() && size < SIZE_LIMIT
      modifies this
      ensures Valid()
      ensures size == 0 ==> p == 0
      ensures 0 < size && size + 8 < 0x1_0000_0000_0000_0000 ==>
        && (p != 0 <==> exists k :: SmallestFor(size, k) && RegionFree(old(FreeSet(lists)), k))
        && (p != 0 ==> SmallestFor(size, b.order) && p + size <= Addr(b) + Pow2(b.order))
      ensures size + 8 >= 0x1_0000_0000_0000_0000 ==>
        (p != 0 <==> RegionFree(old(FreeSet(lists)), 4)) && (p != 0 ==> b.order == 4)
      ensures p == 0 ==> out == old(out) && free == old(free) && header == old(header)
      ensures p != 0 ==> b !in old(out) && out == old(out) + {b} && p == Addr(b) + 8
    {
      p, b := 0, WHOLE;
      if size == 0 { return; }
      OrderIsSmallest(size);
      var total := (size + HEADER_SIZE) % SIZE_LIMIT;
      if total < MIN_BLOCK_SIZE { total := MIN_BLOCK_SIZE; }
      var order := MIN_ORDER;
      while order <= MAX_ORDER && Pow2(order) < total
        invariant MIN_ORDER <= order <= MAX_ORDER + 1
        invariant OrderFrom(total, order) == OrderFor(size)
      {
        order := order + 1;
      }
      if order > MAX_ORDER { return; }
      ServableIffRegionFree(FreeSet(lists), order);
      var block;
      block, b := AcquireBlock(order);
      if block == 0 { return; }
      WriteHeader(block, order, b);
      RequestFitsIffNoWrap(size);
      p := block + HEADER_SIZE;
    }

    /** Marks the block in hand as outstanding. */
    method WriteHeader(block: nat, order: nat, ghost b: Block)
      requires Mirrors() && HeadersMatch() && b !in out && PoolState(FreeSet(lists), out + {b})
      requires b.order == order && block == Addr(b)
      modifies this`header, this`out
      ensures Valid() && out == old(out) + {b} && header == old(header)[block := Header(order, HEADER_MAGIC)]
    {
      OtherStarts(FreeSet(lists), out + {b}, b);
      header := header[block := Header(order, HEADER_MAGIC)];
      out := out + {b};
    }

    /** No other outstanding block starts where b does. */
    lemma OtherStarts(F: set<Block>, O: set<Block>, b: Block)
      requires PoolState(F, O) && b in O
      ensures forall c :: c in O && c != b ==> Addr(c) != Addr(b)
    {
      forall c | c in O && c != b ensures Addr(c) != Addr(b) {
        if Addr(c) == Addr(b) { SameStart(F + O, c, b); }
      }
    }

    /** A user writes a word of its own: any word but the header of an outstanding block. */
    method Store(a: nat, word: Header)
      requires Valid() && forall b :: b in out ==> Addr(b) != a
      modifies this`header
      ensures Valid() && header == old(header)[a := word]
    {
      header := header[a := word];
    }

    /** The word before ptr lies in the pool and reads as a header. */
    predicate Accepted(ptr: nat)
      reads this
    {
      && HEADER_SIZE <= ptr && base <= ptr - HEADER_SIZE < base + Pow2(MAX_ORDER)
      && ptr - HEADER_SIZE in header && header[ptr - HEADER_SIZE].magic == HEADER_MAGIC
      && MIN_ORDER <= header[ptr - HEADER_SIZE].order <= MAX_ORDER
    }

    /** ptr is what some outstanding block was granted as. */
    ghost predicate Granted(ptr: nat)
      reads this
    {
      exists b :: b in out && ptr == Addr(b) + HEADER_SIZE
    }

    /** Releases the block the address was granted with. Any other address is ignored unless the word before it
        reads as a header, which a user may have written there: then the lists are those of no sound pool. So the
        pool stays sound exactly if the address was granted or is not accepted. Freeing the address once more is
        ignored, until it is granted or written again. */
    method Kfree(ptr: nat)
      requires Valid()
      modifies this
      ensures old(Granted(ptr)) ==> old(Accepted(ptr)) && Valid()
      ensures forall b :: b in old(out) && ptr == Addr(b) + HEADER_SIZE ==> out == old(out) - {b}
      ensures !old(Accepted(ptr)) ==> out == old(out) && free == old(free) && header == old(header) && Valid()
      ensures old(Accepted(ptr)) && !old(Granted(ptr)) ==>
        out == old(out) && forall ls :: MirrorsOf(base, free, ls) ==> !PoolState(FreeSet(ls), out)
      ensures !Accepted(ptr)
      ensures forall a :: a in header && a + HEADER_SIZE != ptr ==> a in old(header) && header[a] == old(header)[a]
    {
      OutInside();
      if !Accepted(ptr) {
        return;
      }
      var addr := ptr - HEADER_SIZE;
      var order := header[addr].order;
      ghost var free0 := free;
      header := header[addr := Header(order, 0)];
      MergeBlock(addr, order);
      Settle(addr, order, free0);
    }

    /** What freeing an address has done to the books. */
    ghost method Settle(addr: nat, order: nat, free0: seq<seq<nat>>)
      requires MirrorsOf(base, free0, lists) && PoolState(FreeSet(lists), out) && MIN_ORDER <= order <= MAX_ORDER
      requires base <= addr < base + Pow2(MAX_ORDER)
      requires free == Placed(Coalesce(BuddyAt(base), Hand(free0, addr, order)))
      requires forall b :: b in out && Addr(b) == addr ==> b.order == order
      modifies this`lists, this`out
      ensures forall b :: b in old(out) && Addr(b) == addr ==>
        && out == old(out) - {b} && Mirrors() && PoolState(FreeSet(lists), out)
        && forall c :: c in out ==> Addr(c) != Coalesce(BuddyAt(base), Hand(free0, addr, order)).addr && Addr(c) != addr
      ensures (forall b :: b in old(out) ==> Addr(b) != addr) ==>
        out == old(out) && forall ls :: MirrorsOf(base, free, ls) ==> !PoolState(FreeSet(ls), out)
    {
      BuddyAtFits(base);
      if b :| b in out && Addr(b) == addr {
        Release(b);
        lists := GenuineFree(BuddyAt(base), base, Hand(free0, addr, order), lists, out, b);
      } else {
        forall ls | MirrorsOf(base, free, ls) ensures !PoolState(FreeSet(ls), out) {
          ForgedUnsound(BuddyAt(base), base, Hand(free0, addr, order), lists, out, ls);
        }
      }
    }

    /** The block is no longer outstanding. */
    ghost method Release(b: Block)
      requires PoolState(FreeSet(lists), out) && b in out
      modifies this`out
      ensures out == old(out) - {b} && PoolState(FreeSet(lists), out + {b})
      ensures forall c :: c in old(out) && Addr(c) == Addr(b) ==> c == b
    {
      OtherStarts(FreeSet(lists), out, b);
      assert FreeSet(lists) + out == FreeSet(lists) + ((out - {b}) + {b});
      out := out - {b};
    }

    /** How a forged header ruins the pool: the owner of a 40-byte block writes one at its start and frees the
        address past it. */
    method Forge() returns (p: nat)
      requires Valid() && out == {}
      modifies this
      ensures p != 0 && forall ls :: MirrorsOf(base, free, ls) ==> !PoolState(FreeSet(ls), out)
    {
      AllFreedIsWhole(FreeSet(lists));
      SizeForty();
      ServableIffRegionFree(FreeSet(lists), 6);
      assert WHOLE in FreeSet(lists) && WHOLE.order >= 6;
      ghost var b;
      p, b := Kmalloc(40);
      assert out == {b};
      InsidePool(b);
      Store(p, Header(MIN_ORDER, HEADER_MAGIC));
      assert Accepted(p + HEADER_SIZE);
      assert !Granted(p + HEADER_SIZE);
      Kfree(p + HEADER_SIZE);
    }

    lemma OutInside()
      requires Valid()
      ensures forall b :: b in out ==> base <= Addr(b) < base + Pow2(MAX_ORDER) && MIN_ORDER <= b.order <= MAX_ORDER
    {
      forall b | b in out ensures base <= Addr(b) < base + Pow2(MAX_ORDER) {
        InsidePool(b);
      }
    }

    /** With nothing outstanding the lists hold one block: the whole pool. */
    lemma Restored()
      requires Valid() && out == {}
      ensures forall o, a :: 0 <= o < |free| ==> (a in free[o] <==> o == MAX_ORDER - MIN_ORDER && a == base)
    {
      AllFreedIsWhole(FreeSet(lists));
      ShlZero(MAX_ORDER);
      assert WHOLE in FreeSet(lists);
      var o' :| 0 <= o' < |lists| && WHOLE in lists[o'];
      forall o, a | 0 <= o < |free| ensures a in free[o] <==> o == MAX_ORDER - MIN_ORDER && a == base {
        if a in free[o] {
          var j :| 0 <= j < |free[o]| && free[o][j] == a;
          assert lists[o][j] in lists[o];
          assert lists[o][j] in FreeSet(lists);
        }
        if o == MAX_ORDER - MIN_ORDER && a == base {
          var j :| 0 <= j < |lists[o]| && lists[o][j] == WHOLE;
          assert free[o][j] == base;
        }
      }
    }

    /** Freeing every outstanding block, in any order, restores the initial pool. */
    method FreeAll(ptrs: seq<nat>, ghost blocks: seq<Block>)
      requires Valid() && Distinct(blocks) && out == set b | b in blocks
      requires |ptrs| == |blocks| && forall i :: 0 <= i < |ptrs| ==> ptrs[i] == Addr(blocks[i]) + HEADER_SIZE
      modifies this
      ensures Valid() && out == {}
      ensures forall o, a :: 0 <= o < |free| ==> (a in free[o] <==> o == MAX_ORDER - MIN_ORDER && a == base)
      decreases |ptrs|
    {
      if |ptrs| == 0 {
        Restored();
      } else {
        assert blocks[0] in out;
        Kfree(ptrs[0]);
        TailSet(blocks);
        FreeAll(ptrs[1..], blocks[1..]);
      }
    }
  }
}
