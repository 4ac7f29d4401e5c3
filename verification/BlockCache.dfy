/** The eight-slot write-back buffer cache, proved to behave as one flat array of blocks. */
module BlockCache {
  import opened Common

  /** What a disk block holds: file bytes, an array of block numbers, or allocation bits. */
  datatype Content = Data(bytes: seq<Byte>) | Index(entries: seq<int>) | Bits(bits: seq<bool>)

  datatype Slot = Slot(valid: bool, num: int, refcnt: nat, data: Content) {
    predicate Holds(b: int) { valid && num == b }
    predicate Pinned() { valid && refcnt > 0 }
  }

  const BLOCK_CONCURRENCY := 8

  /** The slot holding block b at or after i, or |ss|. */
  function FindFrom(ss: seq<Slot>, b: int, i: nat): (k: nat)
    requires i <= |ss|
    ensures i <= k <= |ss|
    ensures k < |ss| ==> ss[k].Holds(b)
    ensures forall j :: i <= j < k ==> !ss[j].Holds(b)
    decreases |ss| - i
  {
    if i == |ss| || ss[i].Holds(b) then i else FindFrom(ss, b, i + 1)
  }

  function Find(ss: seq<Slot>, b: int): nat { FindFrom(ss, b, 0) }

  ghost predicate Wf(ss: seq<Slot>, store: map<int, Content>) {
    && (forall i :: 0 <= i < |ss| && ss[i].valid ==> ss[i].num in store)
    && (forall i, j :: 0 <= i < j < |ss| && ss[i].valid && ss[j].valid ==> ss[i].num != ss[j].num)
  }

  /** The contents a reader sees: the slot's if the block is buffered, else the store's. */
  function Lookup(ss: seq<Slot>, store: map<int, Content>, b: int): Content
    requires b in store
  {
    var k := Find(ss, b);
    if k < |ss| then ss[k].data else store[b]
  }

  /** How often block b is open. */
  function OpenCount(ss: seq<Slot>, b: int): nat {
    var k := Find(ss, b);
    if k < |ss| then ss[k].refcnt else 0
  }

  /** flat shows block b as a reader sees it. */
  ghost predicate FlatAt(ss: seq<Slot>, store: map<int, Content>, flat: map<int, Content>, b: int) {
    (b in flat <==> b in store) && (b in store ==> flat[b] == Lookup(ss, store, b))
  }

  /** pins has block b's open count. */
  ghost predicate PinAt(ss: seq<Slot>, pins: map<int, nat>, b: int) {
    (b in pins <==> OpenCount(ss, b) > 0) && (b in pins ==> pins[b] == OpenCount(ss, b))
  }

  /** The slots and the store together present the flat contents and the open counts. */
  ghost predicate Presents(ss: seq<Slot>, store: map<int, Content>, flat: map<int, Content>, pins: map<int, nat>) {
    && Wf(ss, store)
    && (forall b :: FlatAt(ss, store, flat, b))
    && (forall b :: PinAt(ss, pins, b))
  }

  lemma FindIs(ss: seq<Slot>, store: map<int, Content>, i: nat)
    requires Wf(ss, store) && i < |ss| && ss[i].valid
    ensures Find(ss, ss[i].num) == i
  {
  }

  /** A valid slot is what readers of its block see. */
  lemma SlotView(ss: seq<Slot>, store: map<int, Content>, flat: map<int, Content>, pins: map<int, nat>, i: nat)
    requires Presents(ss, store, flat, pins) && i < |ss| && ss[i].valid
    ensures ss[i].num in flat && flat[ss[i].num] == ss[i].data
    ensures ss[i].num in pins <==> ss[i].refcnt > 0
    ensures ss[i].refcnt > 0 ==> pins[ss[i].num] == ss[i].refcnt
  {
    FindIs(ss, store, i);
    assert FlatAt(ss, store, flat, ss[i].num) && PinAt(ss, pins, ss[i].num);
  }

  /** Changing a slot's count or data, not its block, leaves every block where it was. */
  lemma {:induction false} FindKept(ss: seq<Slot>, i: nat, s: Slot, b: int, j: nat)
    requires i < |ss| && s.valid == ss[i].valid && s.num == ss[i].num && j <= |ss|
    ensures FindFrom(ss[i := s], b, j) == FindFrom(ss, b, j)
    decreases |ss| - j
  {
    if j < |ss| { FindKept(ss, i, s, b, j + 1); }
  }

  lemma SlotSet(ss: seq<Slot>, store: map<int, Content>, flat: map<int, Content>, pins: map<int, nat>, i: nat, s: Slot)
    requires Presents(ss, store, flat, pins) && i < |ss| && ss[i].valid && s.valid && s.num == ss[i].num
    ensures Presents(ss[i := s], store, flat[s.num := s.data],
                     if s.refcnt > 0 then pins[s.num := s.refcnt] else pins - {s.num})
  {
    var pins' := if s.refcnt > 0 then pins[s.num := s.refcnt] else pins - {s.num};
    var ss', flat' := ss[i := s], flat[s.num := s.data];
    FindIs(ss, store, i);
    forall b ensures FlatAt(ss', store, flat', b) && PinAt(ss', pins', b) {
      FindKept(ss, i, s, b, 0);
      assert FlatAt(ss, store, flat, b) && PinAt(ss, pins, b);
    }
  }

  /** Writing a valid slot back to the store is invisible. */
  lemma WrittenBack(ss: seq<Slot>, store: map<int, Content>, flat: map<int, Content>, pins: map<int, nat>, i: nat)
    requires Presents(ss, store, flat, pins) && i < |ss| && ss[i].valid
    ensures Presents(ss, store[ss[i].num := ss[i].data], flat, pins)
  {
    var store' := store[ss[i].num := ss[i].data];
    FindIs(ss, store, i);
    forall b ensures FlatAt(ss, store', flat, b) {
      assert FlatAt(ss, store, flat, b);
    }
  }

  /** Loading a block into an unpinned slot whose contents are safely in the store is invisible. */
  lemma Loaded(ss: seq<Slot>, store: map<int, Content>, flat: map<int, Content>, pins: map<int, nat>, i: nat, num: int)
    requires Presents(ss, store, flat, pins) && i < |ss| && !ss[i].Pinned() && num in store && Find(ss, num) == |ss|
    requires ss[i].valid ==> store[ss[i].num] == ss[i].data
    ensures Presents(ss[i := Slot(true, num, 1, store[num])], store, flat, pins[num := 1])
  {
    var ss' := ss[i := Slot(true, num, 1, store[num])];
    var pins' := pins[num := 1];
    FindIs(ss', store, i);
    forall b ensures FlatAt(ss', store, flat, b) && PinAt(ss', pins', b) {
      assert FlatAt(ss, store, flat, b) && PinAt(ss, pins, b);
      if b != num { LoadedOther(ss, store, i, num, b); }
    }
  }

  lemma LoadedOther(ss: seq<Slot>, store: map<int, Content>, i: nat, num: int, b: int)
    requires Wf(ss, store) && i < |ss| && !ss[i].Pinned() && num in store && b != num
    requires ss[i].valid ==> store[ss[i].num] == ss[i].data
    ensures var ss' := ss[i := Slot(true, num, 1, store[num])];
      (b in store ==> Lookup(ss', store, b) == Lookup(ss, store, b)) && OpenCount(ss', b) == OpenCount(ss, b)
  {
    var ss' := ss[i := Slot(true, num, 1, store[num])];
    var k, k' := Find(ss, b), Find(ss', b);
    if k < |ss| && k != i {
      assert ss'[k].Holds(b);
      assert k' < |ss'| && ss[k'].Holds(b);
    } else {
      assert forall j :: 0 <= j < |ss| && j != i ==> !ss[j].Holds(b);
    }
  }

  /** Pigeonhole: distinct numbers drawn from a finite set are no more than its size. */
  lemma {:induction false} DistinctWithin(nums: seq<int>, S: set<int>)
    requires forall i, j :: 0 <= i < j < |nums| ==> nums[i] != nums[j]
    requires forall i :: 0 <= i < |nums| ==> nums[i] in S
    ensures |nums| <= |S|
  {
    if |nums| > 0 {
      DistinctWithin(nums[..|nums| - 1], S - {nums[|nums| - 1]});
    }
  }

  /** If every slot is pinned then as many blocks as slots are open. */
  lemma AllPinned(ss: seq<Slot>, store: map<int, Content>, flat: map<int, Content>, pins: map<int, nat>)
    requires Presents(ss, store, flat, pins) && forall i :: 0 <= i < |ss| ==> ss[i].Pinned()
    ensures |ss| <= |pins|
  {
    var nums := seq(|ss|, i requires 0 <= i < |ss| => ss[i].num);
    forall i | 0 <= i < |ss| ensures nums[i] in pins.Keys { SlotView(ss, store, flat, pins, i); }
    DistinctWithin(nums, pins.Keys);
    assert |pins.Keys| == |pins|;
  }

  /** Open counts after one open of block b. */
  function Opened(pins: map<int, nat>, b: int): map<int, nat> {
    pins[b := (if b in pins then pins[b] else 0) + 1]
  }

  /** Open counts after one close of block b. */
  function Released(pins: map<int, nat>, b: int): map<int, nat>
    requires b in pins
  {
    if pins[b] <= 1 then pins - {b} else pins[b := pins[b] - 1]
  }

  class Cache {
    const slots: array<Slot>
    var store: map<int, Content>
    ghost var flat: map<int, Content>  // the contents a reader sees
    ghost var pins: map<int, nat>      // open count of each open block

    ghost predicate Valid()
      reads this, slots
    {
      && slots.Length == BLOCK_CONCURRENCY
      && Presents(slots[..], store, flat, pins)
    }

    /** Slot blk is open on block b: what a caller of Open holds until it closes. */
    ghost predicate Handle(blk: int, b: int)
      reads this, slots
    {
      0 <= blk < slots.Length && slots[blk].Holds(b) && b in pins
    }

    /** A held slot shows its block's current contents and cannot be replaced. */
    lemma HandleView(blk: int, b: int)
      requires Valid() && Handle(blk, b)
      ensures slots[blk].Pinned() && b in flat && slots[blk].data == flat[b]
    {
      SlotView(slots[..], store, flat, pins, blk);
    }

    /** Closing a block just opened restores the open counts. */
    lemma OpenThenClose(b: int)
      requires Valid()
      ensures Released(Opened(pins, b), b) == pins
      ensures |Opened(pins, b)| <= |pins| + 1
    {
      assert PinAt(slots[..], pins, b);
    }

    /** Everybody who holds an open block still holds it in the same slot. */
    twostate predicate KeepsHandles()
      reads this, slots
    {
      forall i, b :: old(Handle(i, b)) && b in pins ==> Handle(i, b)
    }

    constructor (disk: map<int, Content>)
      ensures Valid() && flat == disk && pins == map[] && store == disk && fresh(slots)
    {
      slots := new Slot[BLOCK_CONCURRENCY](_ => Slot(false, 0, 0, Data([])));
      store := disk;
      flat := disk;
      pins := map[];
    }

    /** Opening a block returns a slot with its current contents and changes nobody's contents.
        It needs a slot that is not pinned unless the block is already open. */
    method Open(num: int) returns (blk: nat)
      requires Valid() && num in flat && (num in pins || |pins| < 8)
      modifies this, slots
      ensures Valid() && flat == old(flat) && KeepsHandles() && Handle(blk, num)
      ensures pins == Opened(old(pins), num)
    {
      blk := Search(num);
      assert PinAt(slots[..], pins, num);
      if blk < BLOCK_CONCURRENCY {
        SlotView(slots[..], store, flat, pins, blk);
        SetCount(blk, slots[blk].refcnt + 1);
        return;
      }
      blk := FirstUnpinned();
      if blk == BLOCK_CONCURRENCY {
        AllPinned(slots[..], store, flat, pins);
        assert false;
      }
      Replace(blk, num);
    }

    /** Index of the slot buffering a block, or past the end. */
    method Search(num: int) returns (i: nat)
      requires slots.Length == BLOCK_CONCURRENCY
      ensures i == Find(slots[..], num)
    {
      i := 0;
      while i < BLOCK_CONCURRENCY && !(slots[i].valid && slots[i].num == num)
        invariant 0 <= i <= BLOCK_CONCURRENCY && forall k :: 0 <= k < i ==> !slots[k].Holds(num)
      {
        i := i + 1;
      }
    }

    /** Index of the first slot that may be replaced, or past the end if all are pinned. */
    method FirstUnpinned() returns (i: nat)
      requires slots.Length == BLOCK_CONCURRENCY
      ensures i <= slots.Length && forall k :: 0 <= k < i ==> slots[k].Pinned()
      ensures i < slots.Length ==> !slots[i].Pinned()
    {
      i := 0;
      while i < BLOCK_CONCURRENCY && slots[i].valid && slots[i].refcnt != 0
        invariant 0 <= i <= BLOCK_CONCURRENCY && forall k :: 0 <= k < i ==> slots[k].Pinned()
      {
        i := i + 1;
      }
    }

    /** Writes back whatever an unpinned slot holds and loads another block into it. */
    method Replace(i: nat, num: int)
      requires Valid() && i < slots.Length && !slots[i].Pinned()
      requires num in flat && Find(slots[..], num) == slots.Length
      modifies this, slots
      ensures Valid() && flat == old(flat) && pins == old(pins)[num := 1] && KeepsHandles() && Handle(i, num)
    {
      ghost var ss := slots[..];
      assert FlatAt(ss, store, flat, num);
      if slots[i].valid {
        SlotView(ss, store, flat, pins, i);
        WrittenBack(ss, store, flat, pins, i);
        store := store[slots[i].num := slots[i].data];
      }
      Loaded(ss, store, flat, pins, i, num);
      slots[i] := Slot(true, num, 1, store[num]);
      assert slots[..] == ss[i := Slot(true, num, 1, store[num])];
      pins := pins[num := 1];
    }

    method Close(blk: nat, ghost b: int)
      requires Valid() && Handle(blk, b)
      modifies this, slots
      ensures Valid() && flat == old(flat) && KeepsHandles()
      ensures pins == Released(old(pins), b)
    {
      SlotView(slots[..], store, flat, pins, blk);
      SetCount(blk, slots[blk].refcnt - 1);
    }

    method SetCount(blk: nat, r: nat)
      requires Valid() && blk < slots.Length && slots[blk].valid
      modifies this, slots
      ensures Valid() && flat == old(flat) && KeepsHandles()
      ensures slots[blk] == old(slots[blk]).(refcnt := r)
      ensures pins == if r > 0 then old(pins)[slots[blk].num := r] else old(pins) - {slots[blk].num}
    {
      ghost var ss := slots[..];
      ghost var s := ss[blk].(refcnt := r);
      SlotView(ss, store, flat, pins, blk);
      SlotSet(ss, store, flat, pins, blk, s);
      assert flat == flat[s.num := s.data];
      slots[blk] := slots[blk].(refcnt := r);
      assert slots[..] == ss[blk := s];
      pins := if r > 0 then pins[s.num := r] else pins - {s.num};
    }

    /** Storing into an open block. */
    method Update(blk: nat, data: Content, ghost b: int)
      requires Valid() && Handle(blk, b)
      modifies this, slots
      ensures Valid() && pins == old(pins) && KeepsHandles()
      ensures flat == old(flat)[b := data] && Handle(blk, b)
    {
      ghost var ss := slots[..];
      HandleView(blk, b);
      SlotView(ss, store, flat, pins, blk);
      SlotSet(ss, store, flat, pins, blk, ss[blk].(data := data));
      assert pins == pins[b := ss[blk].refcnt];
      slots[blk] := slots[blk].(data := data);
      assert slots[..] == ss[blk := ss[blk].(data := data)];
      flat := flat[b := data];
    }

    /** Writing back every valid slot makes the store equal what readers see. */
    method Flush()
      requires Valid()
      modifies this`store
      ensures Valid() && store == flat
    {
      var i := 0;
      while i < BLOCK_CONCURRENCY
        invariant 0 <= i <= BLOCK_CONCURRENCY && Valid()
        invariant forall k :: 0 <= k < i && slots[k].valid ==> store[slots[k].num] == slots[k].data
      {
        if slots[i].valid {
          WrittenBack(slots[..], store, flat, pins, i);
          store := store[slots[i].num := slots[i].data];
        }
        i := i + 1;
      }
      forall b ensures (b in store <==> b in flat) && (b in store ==> store[b] == flat[b]) {
        assert FlatAt(slots[..], store, flat, b);
      }
    }
  }
}
