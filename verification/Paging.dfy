/** Demand paging: frame and slot allocation, swapping, page allocation and the two user copies. */
module Paging {
  import opened Common
  import opened PagingModel

  /** A set of naturals below n that has fewer than n elements misses one of them. */
  lemma {:induction false} SomeMissing(S: set<nat>, n: nat) returns (t: nat)
    requires |S| < n
    ensures t < n && t !in S
  {
    if n - 1 !in S {
      t := n - 1;
    } else {
      t := SomeMissing(S - {n - 1}, n - 1);
    }
  }

  /** A set of naturals below n has at most n elements. */
  lemma {:induction false} SubsetSize(S: set<nat>, n: nat)
    requires forall x :: x in S ==> x < n
    ensures |S| <= n
  {
    if n > 0 { SubsetSize(S - {n - 1}, n - 1); }
  }

  /** The flags mark exactly the given numbers, all below n. */
  ghost predicate Tracks(flags: seq<bool>, n: nat, S: set<nat>) {
    |flags| == n && (forall i :: 0 <= i < n ==> (flags[i] <==> i in S)) && (forall i :: i in S ==> i < n)
  }

  lemma TracksSet(flags: seq<bool>, n: nat, S: set<nat>, i: nat, v: bool)
    requires Tracks(flags, n, S) && i < n
    ensures Tracks(flags[i := v], n, if v then S + {i} else S - {i})
  {
  }

  /** f is a resident user page on the given list. */
  predicate IsLeafOn(role: map<nat, Role>, list: seq<nat>, f: nat) {
    f in list && IsLeaf(role, f)
  }

  /** Whether room for n more frames can be made: the quota has it, or evicting user pages makes it and swap
      can take them. */
  ghost predicate CanShrink(vm: Vm, swapUsed: nat, capacity: nat, g: nat, n: nat) {
    g in vm.lists &&
    (|| |vm.lists[g]| + n <= capacity
     || (TableFrames(vm.role, vm.lists[g]) + n <= capacity && |vm.lists[g]| + n - capacity <= NUM_MAX_SWAP - swapUsed))
  }

  /** Every frame is taken, but perhaps the last, which the search from the cursor misses. */
  ghost predicate Unsearchable(taken: seq<bool>, cursor: nat) {
    forall i :: 0 <= i < MAX_PAGE_NUM && i < |taken| && !taken[i] ==> cursor == MAX_PAGE_NUM && i == MAX_PAGE_NUM - 1
  }

  /** A search that misses: the last frame is the only free one and the cursor stands past it. */
  lemma LostProbe()
    ensures var taken := seq(57342, i => i < 57341);
      !taken[57341] && Unsearchable(taken, 57342) && !Unsearchable(taken, 0)
  {
    var taken := seq(57342, i => i < 57341);
    assert !taken[57341];
  }

  ghost predicate WithinQuota(lists: map<nat, seq<nat>>, capacity: map<nat, nat>, g: nat) {
    g in lists && g in capacity ==> |lists[g]| <= capacity[g]
  }

  /** No group has more frames than its quota. */
  ghost predicate WithinQuotas(lists: map<nat, seq<nat>>, capacity: map<nat, nat>) {
    forall g :: WithinQuota(lists, capacity, g)
  }

  lemma QuotaSet(lists: map<nat, seq<nat>>, capacity: map<nat, nat>, g: nat, q: seq<nat>)
    requires WithinQuotas(lists, capacity) && g in lists
    requires |q| <= |lists[g]| || (g in capacity && |q| <= capacity[g])
    ensures WithinQuotas(lists[g := q], capacity)
  {
    var lists' := lists[g := q];
    forall h ensures WithinQuota(lists', capacity, h) {
      assert WithinQuota(lists, capacity, h) && WithinQuota(lists, capacity, g);
    }
  }

  lemma EvictQuota(s: Vm, f: nat, t: nat, g: nat, capacity: map<nat, nat>)
    requires Wf(s) && g in s.lists && IsLeafOn(s.role, s.lists[g], f) && t !in s.slot && WithinQuotas(s.lists, capacity)
    ensures FrameOk(s, f) && WithinQuotas(Evict(s, f, t).lists, capacity)
  {
    assert FrameOk(s, f) && ListOk(s, g);
    RemoveFromDistinct(s.lists[g], f);
    QuotaSet(s.lists, capacity, g, RemoveFrom(s.lists[g], f));
  }

  /** Every page of v is a page of v' with the same bytes. */
  ghost predicate Extends(v: map<Key, Page>, v': map<Key, Page>) {
    forall k :: k in v ==> k in v' && v'[k] == v[k]
  }

  /** Cursor after k unsuccessful probes from c. */
  function After(c: nat, k: nat): nat
    requires c <= MAX_PAGE_NUM && k <= MAX_PAGE_NUM
  {
    if k == 0 then c
    else if c == MAX_PAGE_NUM then k - 1
    else if c + k >= MAX_PAGE_NUM then c + k - MAX_PAGE_NUM else c + k
  }

  /** Frame i was looked at in the first k probes from c. */
  predicate Probed(c: nat, k: nat, i: nat) {
    if c == MAX_PAGE_NUM then i < k - 1
    else if c + k <= MAX_PAGE_NUM then c <= i < c + k
    else i >= c || i < c + k - MAX_PAGE_NUM
  }

  class Memory {
    var vm: Vm                 // frames, swap, page tables and group lists
    const capacity: map<nat, nat>
    var taken: seq<bool>       // frame in use
    var cursor: nat            // where the next-fit search resumes
    var swapUsing: seq<bool>
    var swapUsed: nat
    var swapNext: nat

    ghost predicate FramesTracked()
      reads this
    {
      Tracks(taken, MAX_PAGE_NUM, vm.role.Keys) && cursor <= MAX_PAGE_NUM
    }

    ghost predicate SlotsTracked()
      reads this
    {
      Tracks(swapUsing, NUM_MAX_SWAP, vm.slot.Keys) && swapNext < NUM_MAX_SWAP && swapUsed == |vm.slot|
    }

    ghost predicate Valid()
      reads this
    {
      && Wf(vm) && FramesTracked() && SlotsTracked()
      && (forall sp :: sp in vm.groupOf ==> vm.groupOf[sp] in capacity)
      && WithinQuotas(vm.lists, capacity)
    }

    constructor (groups: map<nat, nat>, quota: map<nat, nat>, ram: map<nat, Page>, swap: map<nat, Page>)
      requires forall sp :: sp in groups ==> groups[sp] in quota
      requires forall f :: 0 <= f < MAX_PAGE_NUM ==> f in ram && |ram[f]| == PAGE_SIZE
      requires forall t :: 0 <= t < NUM_MAX_SWAP ==> t in swap
      ensures Valid() && vm.pt == map[] && vm.groupOf == groups && capacity == quota
    {
      vm := Vm(ram, swap, map[], map[], map[], map[], map g | g in groups.Values :: [], groups);
      capacity := quota;
      taken, cursor := seq(MAX_PAGE_NUM, _ => false), 0;
      swapUsing, swapUsed, swapNext := seq(NUM_MAX_SWAP, _ => false), 0, 0;
    }

    /** What eviction leaves alone: every user page's bytes, which pages are mapped, the entries already in
        swap, and all tables. */
    twostate predicate Transparent()
      reads this
    {
      && View(vm) == old(View(vm)) && vm.pt.Keys == old(vm).pt.Keys && vm.tables == old(vm).tables
      && vm.lists.Keys == old(vm).lists.Keys && vm.groupOf == old(vm).groupOf
      && (forall k :: k in vm.pt && old(vm).pt[k].Soft? ==> vm.pt[k] == old(vm).pt[k])
    }

    /** Why an allocation in the group fails: its quota is used up and no user page of it can be evicted, or swap
        is full, or the search for a free frame has missed. */
    ghost predicate Stuck(g: nat)
      reads this
    {
      && g in vm.lists && g in capacity
      && (|| (|vm.lists[g]| >= capacity[g]
              && (swapUsed == NUM_MAX_SWAP || forall f :: !IsLeafOn(vm.role, vm.lists[g], f)))
          || (|taken| == MAX_PAGE_NUM && (forall i :: 0 <= i < MAX_PAGE_NUM - 1 ==> taken[i])
              && (taken[MAX_PAGE_NUM - 1] || cursor == MAX_PAGE_NUM - 1)))
    }

    /** Next free swap slot at or after the last one, wrapping; it exists because not all are in use. */
    method AllocSwap() returns (t: nat)
      requires SlotsTracked() && swapUsed < NUM_MAX_SWAP
      modifies this`swapNext
      ensures SlotsTracked() && t == swapNext && !swapUsing[t] && t !in vm.slot
    {
      ghost var target := SomeMissing(vm.slot.Keys, NUM_MAX_SWAP);
      while swapUsing[swapNext]
        invariant SlotsTracked() && target < NUM_MAX_SWAP && target !in vm.slot
        decreases if target >= swapNext then target - swapNext else target - swapNext + NUM_MAX_SWAP
      {
        swapNext := (swapNext + 1) % NUM_MAX_SWAP;
      }
      t := swapNext;
    }

    /** Moves some resident user page of the group to swap. Which one is the policy's choice, so any leaf on
        the group's list may be taken; fails when there is none or swap is full. */
    method SwapOut(g: nat) returns (ok: bool)
      requires Valid() && g in vm.lists
      modifies this
      ensures Valid() && Transparent()
      ensures taken == old(taken) || ok
      ensures cursor == old(cursor) && TableFrames(vm.role, vm.lists[g]) == TableFrames(old(vm).role, old(vm).lists[g])
      ensures ok ==> |vm.lists[g]| == |old(vm).lists[g]| - 1 && swapUsed == old(swapUsed) + 1
      ensures !ok ==> vm == old(vm) && swapUsed == old(swapUsed)
      ensures ok <==> old(swapUsed) < 16384 && exists f :: IsLeafOn(old(vm).role, old(vm).lists[g], f)
    {
      ok := swapUsed < NUM_MAX_SWAP && exists f :: f in vm.lists[g] && IsLeafOn(vm.role, vm.lists[g], f);
      if ok {
        var f :| f in vm.lists[g] && IsLeafOn(vm.role, vm.lists[g], f);
        var t := AllocSwap();
        EvictTo(g, f, t);
      }
    }

    /** Writes frame f's page to slot t, points its entry there and frees the frame. */
    method EvictTo(g: nat, f: nat, t: nat)
      requires Valid() && g in vm.lists && IsLeafOn(vm.role, vm.lists[g], f) && t < NUM_MAX_SWAP && t !in vm.slot
      modifies this
      ensures Valid() && Transparent() && |vm.lists[g]| == |old(vm).lists[g]| - 1
      ensures cursor == old(cursor) && swapUsed == old(swapUsed) + 1
      ensures TableFrames(vm.role, vm.lists[g]) == TableFrames(old(vm).role, old(vm).lists[g])
    {
      EvictBooks(vm, f, t, g);
      EvictKeeps(vm, f, t);
      TracksSet(taken, MAX_PAGE_NUM, vm.role.Keys, f, false);
      TracksSet(swapUsing, NUM_MAX_SWAP, vm.slot.Keys, t, true);
      EvictQuota(vm, f, t, g, capacity);
      vm := Evict(vm, f, t);
      taken := taken[f := false];
      swapUsing := swapUsing[t := true];
      swapUsed := swapUsed + 1;
    }

    /** Evicts until the group has room for n more frames; fails exactly when that cannot be made. */
    method Shrink(g: nat, n: nat) returns (ok: bool)
      requires Valid() && g in vm.lists && g in capacity
      modifies this
      ensures Valid() && Transparent() && cursor == old(cursor)
      ensures ok <==> CanShrink(old(vm), old(swapUsed), capacity[g], g, n)
      ensures ok ==> |vm.lists[g]| == Min(|old(vm).lists[g]|, capacity[g] - n)
      ensures !ok ==>
        |vm.lists[g]| + n > capacity[g] && (swapUsed == NUM_MAX_SWAP || forall f :: !IsLeafOn(vm.role, vm.lists[g], f))
    {
      ok := true;
      while |vm.lists[g]| + n > capacity[g]
        invariant Valid() && Transparent() && ok && cursor == old(cursor)
        invariant swapUsed + |vm.lists[g]| == old(swapUsed) + |old(vm).lists[g]| && |vm.lists[g]| <= |old(vm).lists[g]|
        invariant TableFrames(vm.role, vm.lists[g]) == TableFrames(old(vm).role, old(vm).lists[g])
        invariant |vm.lists[g]| == |old(vm).lists[g]| || |vm.lists[g]| + n >= capacity[g]
        decreases |vm.lists[g]|
      {
        SlotBound();
        ok := SwapOut(g);
        if !ok {
          forall f | f in vm.lists[g] && swapUsed < NUM_MAX_SWAP ensures !IsLeaf(vm.role, f) {
            assert !IsLeafOn(vm.role, vm.lists[g], f);
          }
          return;
        }
      }
      SlotBound();
    }

    lemma SlotBound()
      requires SlotsTracked()
      ensures swapUsed <= NUM_MAX_SWAP
    {
      SubsetSize(vm.slot.Keys, NUM_MAX_SWAP);
    }

    /** Next-fit search for a free frame. It misses one only when the cursor stands past the last frame and
        the last frame is the only free one. */
    method FindFrame() returns (ok: bool, f: nat)
      requires FramesTracked()
      modifies this`cursor
      ensures FramesTracked()
      ensures ok ==> f < MAX_PAGE_NUM && f !in vm.role
      ensures !ok <==> Unsearchable(taken, old(cursor))
      ensures !ok ==> cursor == if old(cursor) == MAX_PAGE_NUM then MAX_PAGE_NUM - 1 else old(cursor)
    {
      ghost var c := cursor;
      var counter := 0;
      f := 0;
      while counter < MAX_PAGE_NUM
        invariant 0 <= counter <= MAX_PAGE_NUM && FramesTracked()
        invariant cursor == After(c, counter)
        invariant forall i :: 0 <= i < MAX_PAGE_NUM && Probed(c, counter, i) ==> taken[i]
      {
        if cursor < MAX_PAGE_NUM && !taken[cursor] {
          ok, f := true, cursor;
          cursor := cursor + 1;
          return;
        }
        cursor := cursor + 1;
        if cursor >= MAX_PAGE_NUM {
          cursor := 0;
        }
        counter := counter + 1;
      }
      ok := false;
    }

    /** A free frame for the group, after making room in its quota. It fails exactly when room cannot be made or
        the search misses; the kernel then halts or kills. */
    method AllocFrame(g: nat) returns (ok: bool, f: nat)
      requires Valid() && g in vm.lists && g in capacity
      modifies this
      ensures Valid() && Transparent()
      ensures ok <==> CanShrink(old(vm), old(swapUsed), capacity[g], g, 1) && !Unsearchable(taken, old(cursor))
      ensures ok ==> f < MAX_PAGE_NUM && f !in vm.role && |vm.lists[g]| == Min(|old(vm).lists[g]|, capacity[g] - 1)
      ensures !ok ==> Stuck(g)
    {
      f := 0;
      ok := Shrink(g, 1);
      if ok {
        ok, f := FindFrame();
      }
    }

    /** Frame f becomes the table at a path. */
    method NewTable(f: nat, sp: nat, path: seq<nat>)
      requires Valid() && sp in vm.groupOf && (sp, path) !in vm.tables && f < MAX_PAGE_NUM && f !in vm.role
      requires |path| == 1 || (|path| == 2 && path[1] < 512 && (sp, path[..1]) in vm.tables)
      requires |vm.lists[vm.groupOf[sp]]| < capacity[vm.groupOf[sp]]
      modifies this
      ensures Valid() && View(vm) == old(View(vm)) && vm.groupOf == old(vm).groupOf && vm.pt == old(vm).pt
      ensures vm.tables == old(vm).tables[(sp, path) := f]
    {
      AddTableKeeps(vm, f, sp, path);
      TracksSet(taken, MAX_PAGE_NUM, vm.role.Keys, f, true);
      QuotaSet(vm.lists, capacity, vm.groupOf[sp], [f] + vm.lists[vm.groupOf[sp]]);
      vm := AddTable(vm, f, sp, path);
      taken := taken[f := true];
    }

    /** Makes sure the page table at a path exists, allocating it if needed. */
    method EnsureTable(sp: nat, path: seq<nat>) returns (ok: bool)
      requires Valid() && sp in vm.groupOf
      requires |path| == 1 || (|path| == 2 && path[1] < 512 && (sp, path[..1]) in vm.tables)
      modifies this
      ensures Valid() && View(vm) == old(View(vm)) && vm.groupOf == old(vm).groupOf && vm.pt.Keys == old(vm).pt.Keys
      ensures !ok ==> (sp, path) !in old(vm).tables && Stuck(vm.groupOf[sp])
      ensures old(vm).tables.Keys <= vm.tables.Keys && (ok ==> (sp, path) in vm.tables)
      ensures forall tk :: tk in vm.tables ==>
        if tk in old(vm).tables then vm.tables[tk] == old(vm).tables[tk] else tk == (sp, path)
    {
      ok := true;
      if (sp, path) !in vm.tables {
        var f;
        ok, f := AllocFrame(vm.groupOf[sp]);
        if ok {
          NewTable(f, sp, path);
        }
      }
    }

    /** Finds or makes the two tables on the way to page k. */
    method FindWay(k: Key) returns (ok: bool)
      requires Valid() && k.space in vm.groupOf
      modifies this
      ensures Valid() && View(vm) == old(View(vm)) && vm.groupOf == old(vm).groupOf
      ensures WayMade(old(vm).tables, vm.tables, k, ok) && (!ok ==> Stuck(vm.groupOf[k.space]))
    {
      MidBelowTop(k.vpn);
      ok := EnsureTable(k.space, Top(k.vpn));
      if ok {
        ok := EnsureTable(k.space, Mid(k.vpn));
      }
    }

    /** Makes page k resident: finds or makes its two tables, then allocates it, swaps it in, or leaves it. No mapped
        page changes its bytes, no other page becomes mapped, no other table is made and none is lost. */
    method AllocPage(k: Key) returns (ok: bool, f: nat)
      requires Valid() && k.space in vm.groupOf
      modifies this
      ensures Valid() && vm.groupOf == old(vm).groupOf
      ensures if ok then k in vm.pt && vm.pt[k] == Present(f) else Stuck(vm.groupOf[k.space]) && View(vm) == old(View(vm))
      ensures Extends(old(View(vm)), View(vm)) && View(vm).Keys <= old(View(vm)).Keys + {k}
      ensures WayMade(old(vm).tables, vm.tables, k, ok)
    {
      f := 0;
      ok := FindWay(k);
      if ok {
        ok, f := MakeResident(k);
      }
    }

    /** Brings in page k, whose tables exist. */
    method MakeResident(k: Key) returns (ok: bool, f: nat)
      requires Valid() && k.space in vm.groupOf
      requires (k.space, Top(k.vpn)) in vm.tables && (k.space, Mid(k.vpn)) in vm.tables
      modifies this
      ensures Valid() && vm.groupOf == old(vm).groupOf && vm.tables == old(vm).tables
      ensures if ok then k in vm.pt && vm.pt[k] == Present(f) else Stuck(vm.groupOf[k.space]) && View(vm) == old(View(vm))
      ensures Extends(old(View(vm)), View(vm)) && View(vm).Keys <= old(View(vm)).Keys + {k}
    {
      if k in vm.pt && vm.pt[k].Present? {
        return true, vm.pt[k].frame;
      }
      ok, f := AllocFrame(vm.groupOf[k.space]);
      if !ok { return; }
      if k in vm.pt {
        SwapIn(k, f);
      } else {
        BindFresh(k, f);
      }
    }

    /** A store by the kernel into a resident user page. */
    method Store(k: Key, f: nat, page: Page)
      requires Valid() && k in vm.pt && vm.pt[k] == Present(f) && |page| == PAGE_SIZE
      modifies this`vm
      ensures Valid() && vm.groupOf == old(vm).groupOf && View(vm) == old(View(vm))[k := page]
    {
      PokeKeeps(vm, f, k, page);
      vm := Poke(vm, f, page);
    }

    /** Reads page k back from its slot into frame f and frees the slot. */
    method SwapIn(k: Key, f: nat)
      requires Valid() && k.space in vm.groupOf && k in vm.pt && vm.pt[k].Soft? && f < MAX_PAGE_NUM && f !in vm.role
      requires |vm.lists[vm.groupOf[k.space]]| < capacity[vm.groupOf[k.space]]
      modifies this
      ensures Valid() && vm.groupOf == old(vm).groupOf && vm.tables == old(vm).tables && View(vm) == old(View(vm))
      ensures k in vm.pt && vm.pt[k] == Present(f)
    {
      var t := vm.pt[k].slot;
      BindOldKeeps(vm, f, k);
      BindOldBooks(vm, f, k);
      TracksSet(taken, MAX_PAGE_NUM, vm.role.Keys, f, true);
      TracksSet(swapUsing, NUM_MAX_SWAP, vm.slot.Keys, t, false);
      QuotaSet(vm.lists, capacity, vm.groupOf[k.space], [f] + vm.lists[vm.groupOf[k.space]]);
      vm := BindOld(vm, f, k);
      swapUsing := swapUsing[t := false];
      swapUsed := swapUsed - 1;
      taken := taken[f := true];
    }

    /** Maps page k to frame f for the first time; its bytes are whatever the frame held. */
    method BindFresh(k: Key, f: nat)
      requires Valid() && k.space in vm.groupOf && k !in vm.pt && f < MAX_PAGE_NUM && f !in vm.role
      requires |vm.lists[vm.groupOf[k.space]]| < capacity[vm.groupOf[k.space]]
      requires (k.space, Top(k.vpn)) in vm.tables && (k.space, Mid(k.vpn)) in vm.tables
      modifies this
      ensures Valid() && vm.groupOf == old(vm).groupOf && vm.tables == old(vm).tables
      ensures View(vm) == old(View(vm))[k := old(vm).mem[f]]
      ensures k in vm.pt && vm.pt[k] == Present(f)
    {
      BindNewKeeps(vm, f, k);
      TracksSet(taken, MAX_PAGE_NUM, vm.role.Keys, f, true);
      QuotaSet(vm.lists, capacity, vm.groupOf[k.space], [f] + vm.lists[vm.groupOf[k.space]]);
      vm := BindNew(vm, f, k);
      taken := taken[f := true];
    }
  }
}
