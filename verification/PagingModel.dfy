/** Virtual memory as seen by processes: page tables, frames, swap slots, and the user pages they
    present. Each step of demand paging is a function here, proved to leave every user page alone. */
module PagingModel {
  import opened Common

  type Page = seq<Byte>

  const VA_SPAN := 0x80_0000_0000  // 2^39 bytes of virtual address space
  const MAX_PAGE_NUM := 57342
  const NUM_MAX_SWAP := 16384

  /** A user page: an address space and a virtual page number. */
  datatype Key = Key(space: nat, vpn: nat)

  /** A page-table entry in use: backed by a frame, or by a swap slot (the SOFT bit). */
  datatype Pte = Present(frame: nat) | Soft(slot: nat)

  /** The way to the first-level table for a page. */
  function Top(vpn: nat): seq<nat> { [vpn / 0x4_0000] }

  /** The way to the second-level table for a page. */
  function Mid(vpn: nat): seq<nat> { [vpn / 0x4_0000, vpn / 0x200 % 0x200] }

  /** A first-level table is for a gigabyte of addresses, and the page's are among them. */
  lemma TopCovers(vpn: nat)
    ensures |Top(vpn)| == 1 && Top(vpn)[0] * 0x4000_0000 <= vpn * 4096 < (Top(vpn)[0] + 1) * 0x4000_0000
  {
  }

  /** A second-level table is below the page's first-level one, for two megabytes with the page's among them. */
  lemma MidCovers(vpn: nat)
    ensures |Mid(vpn)| == 2 && Mid(vpn)[0] == Top(vpn)[0] && Mid(vpn)[1] < 512
    ensures var base := Mid(vpn)[0] * 0x4000_0000 + Mid(vpn)[1] * 0x20_0000;
      base <= vpn * 4096 < base + 0x20_0000
  {
    var m := vpn / 0x200;
    Nested(vpn);
    assert m == m / 0x200 * 0x200 + m % 0x200;
  }

  lemma MidBelowTop(vpn: nat)
    ensures |Mid(vpn)| == 2 && Mid(vpn)[1] < 512 && Mid(vpn)[..1] == Top(vpn)
  {
  }

  /** Tables after a way to page k has been looked for: none is lost or moved, and none but k's two is made; both
      are there if it was found. */
  ghost predicate WayMade(tables: map<(nat, seq<nat>), nat>, tables': map<(nat, seq<nat>), nat>, k: Key, found: bool) {
    && tables.Keys <= tables'.Keys
    && (forall tk :: tk in tables' ==>
          if tk in tables then tables'[tk] == tables[tk] else tk == (k.space, Top(k.vpn)) || tk == (k.space, Mid(k.vpn)))
    && (found ==> (k.space, Top(k.vpn)) in tables' && (k.space, Mid(k.vpn)) in tables')
  }

  lemma Nested(vpn: nat)
    ensures vpn / 0x4_0000 == vpn / 0x200 / 0x200
  {
  }

  /** What an allocated frame is used for: a user page, or the table at a path of indices. */
  datatype Role = LeafOf(key: Key) | TableOf(space: nat, path: seq<nat>) {
    function Space(): nat { if LeafOf? then key.space else space }
  }

  datatype Vm = Vm(
    mem: map<nat, Page>,                  // frame contents
    disk: map<nat, Page>,                 // swap slot contents
    pt: map<Key, Pte>,                    // leaf entries
    tables: map<(nat, seq<nat>), nat>,    // frames holding page tables
    role: map<nat, Role>,                 // back references of allocated frames
    slot: map<nat, Key>,                  // which page a used slot holds
    lists: map<nat, seq<nat>>,            // each group's frames
    groupOf: map<nat, nat>)               // group of each address space

  // ---- the user's view ----

  function Content(s: Vm, k: Key): Page
    requires k in s.pt
  {
    match s.pt[k]
    case Present(f) => if f in s.mem then s.mem[f] else []
    case Soft(t) => if t in s.disk then s.disk[t] else []
  }

  /** Every mapped user page with its bytes, wherever they are. */
  function View(s: Vm): map<Key, Page> { map k | k in s.pt :: Content(s, k) }

  // ---- consistency ----

  ghost predicate KeyOk(s: Vm, k: Key) {
    k in s.pt ==>
      match s.pt[k]
      case Present(f) => f in s.role && s.role[f] == LeafOf(k)
      case Soft(t) => t in s.slot && s.slot[t] == k
  }

  ghost predicate FrameOk(s: Vm, f: nat) {
    f in s.role ==>
      && f in s.mem && |s.mem[f]| == PAGE_SIZE
      && s.role[f].Space() in s.groupOf && s.groupOf[s.role[f].Space()] in s.lists
      && f in s.lists[s.groupOf[s.role[f].Space()]]
      && match s.role[f]
         case LeafOf(k) => k in s.pt && s.pt[k] == Present(f)
         case TableOf(sp, path) => (sp, path) in s.tables && s.tables[(sp, path)] == f
  }

  ghost predicate SlotOk(s: Vm, t: nat) {
    t in s.slot ==> t in s.disk && |s.disk[t]| == PAGE_SIZE && s.slot[t] in s.pt && s.pt[s.slot[t]] == Soft(t)
  }

  ghost predicate TableOk(s: Vm, tk: (nat, seq<nat>)) {
    tk in s.tables ==> s.tables[tk] in s.role && s.role[s.tables[tk]] == TableOf(tk.0, tk.1)
  }

  /** A mapped page, in memory or in swap, has both its tables. */
  ghost predicate Tabled(s: Vm, k: Key) {
    k in s.pt ==> (k.space, Top(k.vpn)) in s.tables && (k.space, Mid(k.vpn)) in s.tables
  }

  /** A table is at the first level, or below one that exists. */
  ghost predicate Rooted(s: Vm, tk: (nat, seq<nat>)) {
    tk in s.tables ==> |tk.1| == 1 || (|tk.1| == 2 && tk.1[1] < 512 && (tk.0, tk.1[..1]) in s.tables)
  }

  ghost predicate ListOk(s: Vm, g: nat) {
    g in s.lists ==>
      && Distinct(s.lists[g])
      && forall f :: f in s.lists[g] ==>
           f in s.role && s.role[f].Space() in s.groupOf && s.groupOf[s.role[f].Space()] == g
  }

  /** Every entry, frame, slot, table and list agrees with its back references, and every page has its tables. */
  ghost predicate Wf(s: Vm) {
    && (forall k :: KeyOk(s, k))
    && (forall f :: FrameOk(s, f))
    && (forall t :: SlotOk(s, t))
    && (forall tk :: TableOk(s, tk))
    && (forall k :: Tabled(s, k))
    && (forall tk :: Rooted(s, tk))
    && (forall g :: ListOk(s, g))
    && (forall sp :: sp in s.groupOf ==> s.groupOf[sp] in s.lists)
    && (forall f :: 0 <= f < MAX_PAGE_NUM ==> f in s.mem && |s.mem[f]| == PAGE_SIZE)
    && (forall t :: 0 <= t < NUM_MAX_SWAP ==> t in s.disk)
  }

  /** No frame and no slot backs two user pages, and no frame is both a user page and a table. */
  lemma NothingShared(s: Vm, k: Key, k': Key)
    requires Wf(s) && k in s.pt && k' in s.pt && s.pt[k] == s.pt[k']
    ensures k == k'
    ensures s.pt[k].Present? ==> forall tk :: tk in s.tables ==> s.tables[tk] != s.pt[k].frame
  {
    assert KeyOk(s, k) && KeyOk(s, k');
    forall tk | tk in s.tables && s.pt[k].Present? ensures s.tables[tk] != s.pt[k].frame {
      assert TableOk(s, tk);
    }
  }

  /** A resident page costs its group three frames: its own and those of its two tables. */
  lemma ThreeFrames(s: Vm, k: Key)
    requires Wf(s) && k in s.pt && s.pt[k].Present?
    ensures (k.space, Top(k.vpn)) in s.tables && (k.space, Mid(k.vpn)) in s.tables
    ensures var f, m, n := s.pt[k].frame, s.tables[(k.space, Mid(k.vpn))], s.tables[(k.space, Top(k.vpn))];
      f != m && f != n && m != n && k.space in s.groupOf && s.groupOf[k.space] in s.lists
      && f in s.lists[s.groupOf[k.space]] && m in s.lists[s.groupOf[k.space]] && n in s.lists[s.groupOf[k.space]]
  {
    assert KeyOk(s, k) && Tabled(s, k) && FrameOk(s, s.pt[k].frame);
    var top, mid := (k.space, Top(k.vpn)), (k.space, Mid(k.vpn));
    assert TableOk(s, top) && TableOk(s, mid) && FrameOk(s, s.tables[top]) && FrameOk(s, s.tables[mid]);
  }

  // ---- removing from a list ----

  lemma {:induction false} RemoveFromDistinct(q: seq<nat>, f: nat)
    requires Distinct(q)
    ensures Distinct(RemoveFrom(q, f))
    ensures forall x :: x in RemoveFrom(q, f) <==> x in q && x != f
    ensures f in q ==> |RemoveFrom(q, f)| == |q| - 1
  {
    if q != [] {
      assert q == [q[0]] + q[1..];
      assert forall x :: x in q[1..] ==> x != q[0];
      RemoveFromDistinct(q[1..], f);
      if q[0] != f { DistinctCons(q[0], RemoveFrom(q[1..], f)); }
    }
  }

  lemma DistinctCons(x: nat, q: seq<nat>)
    requires Distinct(q) && x !in q
    ensures Distinct([x] + q)
  {
  }

  // ---- what can be evicted ----

  predicate IsLeaf(role: map<nat, Role>, f: nat) { f in role && role[f].LeafOf? }

  /** How many frames on the list are not user pages, so cannot be evicted. */
  function TableFrames(role: map<nat, Role>, q: seq<nat>): (n: nat)
    ensures n <= |q|
    ensures n == |q| <==> forall f :: f in q ==> !IsLeaf(role, f)
  {
    if q == [] then 0
    else
      assert q == [q[0]] + q[1..];
      (if IsLeaf(role, q[0]) then 0 else 1) + TableFrames(role, q[1..])
  }

  lemma {:induction false} TableFramesSame(role: map<nat, Role>, role': map<nat, Role>, q: seq<nat>)
    requires forall f :: f in q ==> (IsLeaf(role, f) <==> IsLeaf(role', f))
    ensures TableFrames(role, q) == TableFrames(role', q)
  {
    if q != [] {
      assert q == [q[0]] + q[1..];
      TableFramesSame(role, role', q[1..]);
    }
  }

  /** Evicting a user page leaves as many other frames as before. */
  lemma {:induction false} TableFramesEvict(role: map<nat, Role>, q: seq<nat>, f: nat)
    requires Distinct(q) && f in q && IsLeaf(role, f)
    ensures TableFrames(role - {f}, RemoveFrom(q, f)) == TableFrames(role, q)
  {
    assert q == [q[0]] + q[1..];
    assert forall x :: x in q[1..] ==> x != q[0];
    if q[0] == f {
      TableFramesSame(role, role - {f}, q[1..]);
    } else {
      TableFramesEvict(role, q[1..], f);
      assert RemoveFrom(q, f)[1..] == RemoveFrom(q[1..], f);
    }
  }

  // ---- steps ----

  /** swapout: frame f's page moves to slot t. */
  function Evict(s: Vm, f: nat, t: nat): Vm
    requires f in s.role && s.role[f].LeafOf? && f in s.mem
    requires s.role[f].Space() in s.groupOf && s.groupOf[s.role[f].Space()] in s.lists
  {
    var k := s.role[f].key;
    var g := s.groupOf[k.space];
    s.(disk := s.disk[t := s.mem[f]], pt := s.pt[k := Soft(t)], role := s.role - {f}, slot := s.slot[t := k],
       lists := s.lists[g := RemoveFrom(s.lists[g], f)])
  }

  /** bind_page on a page never touched before: frame f backs page k with whatever bytes it holds. */
  function BindNew(s: Vm, f: nat, k: Key): Vm
    requires k.space in s.groupOf && s.groupOf[k.space] in s.lists
  {
    var g := s.groupOf[k.space];
    s.(pt := s.pt[k := Present(f)], role := s.role[f := LeafOf(k)], lists := s.lists[g := [f] + s.lists[g]])
  }

  /** swapin: page k returns from its slot to frame f. */
  function BindOld(s: Vm, f: nat, k: Key): Vm
    requires k in s.pt && s.pt[k].Soft? && s.pt[k].slot in s.disk
    requires k.space in s.groupOf && s.groupOf[k.space] in s.lists
  {
    var t := s.pt[k].slot;
    var g := s.groupOf[k.space];
    s.(mem := s.mem[f := s.disk[t]], pt := s.pt[k := Present(f)], role := s.role[f := LeafOf(k)],
       slot := s.slot - {t}, lists := s.lists[g := [f] + s.lists[g]])
  }

  /** add_page: frame f becomes the table at a path. */
  function AddTable(s: Vm, f: nat, sp: nat, path: seq<nat>): Vm
    requires sp in s.groupOf && s.groupOf[sp] in s.lists
  {
    var g := s.groupOf[sp];
    s.(tables := s.tables[(sp, path) := f], role := s.role[f := TableOf(sp, path)],
       lists := s.lists[g := [f] + s.lists[g]])
  }

  /** A store through a kernel address inside frame f. */
  function Poke(s: Vm, f: nat, page: Page): Vm { s.(mem := s.mem[f := page]) }

  lemma EvictKeeps(s: Vm, f: nat, t: nat)
    requires Wf(s) && f in s.role && s.role[f].LeafOf? && t !in s.slot && t < NUM_MAX_SWAP
    ensures FrameOk(s, f) && Wf(Evict(s, f, t)) && View(Evict(s, f, t)) == View(s)
  {
    assert FrameOk(s, f);
    var s' := Evict(s, f, t);
    var k := s.role[f].key;
    var g := s.groupOf[k.space];
    assert KeyOk(s, k) && ListOk(s, g);
    RemoveFromDistinct(s.lists[g], f);
    forall k' ensures KeyOk(s', k') { assert KeyOk(s, k'); }
    forall f' ensures FrameOk(s', f') { assert FrameOk(s, f'); }
    forall t' ensures SlotOk(s', t') { assert SlotOk(s, t'); }
    forall tk ensures TableOk(s', tk) && Rooted(s', tk) { assert TableOk(s, tk) && Rooted(s, tk); }
    forall k' ensures Tabled(s', k') { assert Tabled(s, k'); }
    forall g' ensures ListOk(s', g') { assert ListOk(s, g'); }
    forall k' | k' in s.pt ensures Content(s', k') == Content(s, k') {
      assert KeyOk(s, k');
    }
  }

  /** Book-keeping of an eviction: one frame freed, one slot used, no entry added or lost. */
  lemma EvictBooks(s: Vm, f: nat, t: nat, g: nat)
    requires Wf(s) && g in s.lists && f in s.lists[g] && f in s.role && s.role[f].LeafOf? && t !in s.slot
    ensures FrameOk(s, f)
    ensures var s' := Evict(s, f, t);
      && s'.role.Keys == s.role.Keys - {f} && s'.slot.Keys == s.slot.Keys + {t} && |s'.slot| == |s.slot| + 1
      && s'.pt.Keys == s.pt.Keys && s'.lists.Keys == s.lists.Keys && |s'.lists[g]| == |s.lists[g]| - 1
      && TableFrames(s'.role, s'.lists[g]) == TableFrames(s.role, s.lists[g])
      && (forall k :: k in s.pt && s.pt[k].Soft? ==> s'.pt[k] == s.pt[k])
  {
    assert FrameOk(s, f) && ListOk(s, g);
    RemoveFromDistinct(s.lists[g], f);
    TableFramesEvict(s.role, s.lists[g], f);
    SlotAdded(s.slot, t, s.role[f].key);
  }

  lemma SlotAdded(slot: map<nat, Key>, t: nat, k: Key)
    requires t !in slot
    ensures |slot[t := k]| == |slot| + 1
  {
    assert slot[t := k] - {t} == slot;
  }

  lemma BindNewKeeps(s: Vm, f: nat, k: Key)
    requires Wf(s) && f !in s.role && f < MAX_PAGE_NUM && k !in s.pt && k.space in s.groupOf
    requires (k.space, Top(k.vpn)) in s.tables && (k.space, Mid(k.vpn)) in s.tables
    ensures Wf(BindNew(s, f, k)) && View(BindNew(s, f, k)) == View(s)[k := s.mem[f]]
  {
    var s' := BindNew(s, f, k);
    var g := s.groupOf[k.space];
    assert ListOk(s, g);
    DistinctCons(f, s.lists[g]);
    forall k' ensures KeyOk(s', k') { assert KeyOk(s, k'); }
    forall f' ensures FrameOk(s', f') { assert FrameOk(s, f'); }
    forall t' ensures SlotOk(s', t') { assert SlotOk(s, t'); }
    forall tk ensures TableOk(s', tk) && Rooted(s', tk) { assert TableOk(s, tk) && Rooted(s, tk); }
    forall k' ensures Tabled(s', k') { assert Tabled(s, k'); }
    forall g' ensures ListOk(s', g') { assert ListOk(s, g'); }
  }

  lemma BindOldKeeps(s: Vm, f: nat, k: Key)
    requires Wf(s) && f !in s.role && f < MAX_PAGE_NUM && k in s.pt && s.pt[k].Soft? && k.space in s.groupOf
    ensures KeyOk(s, k) && SlotOk(s, s.pt[k].slot)
    ensures Wf(BindOld(s, f, k)) && View(BindOld(s, f, k)) == View(s)
  {
    assert KeyOk(s, k) && SlotOk(s, s.pt[k].slot);
    var s' := BindOld(s, f, k);
    var g := s.groupOf[k.space];
    assert ListOk(s, g);
    DistinctCons(f, s.lists[g]);
    forall k' ensures KeyOk(s', k') { assert KeyOk(s, k'); }
    forall f' ensures FrameOk(s', f') { assert FrameOk(s, f'); }
    forall t' ensures SlotOk(s', t') { assert SlotOk(s, t'); }
    forall tk ensures TableOk(s', tk) && Rooted(s', tk) { assert TableOk(s, tk) && Rooted(s, tk); }
    forall k' ensures Tabled(s', k') { assert Tabled(s, k'); }
    forall g' ensures ListOk(s', g') { assert ListOk(s, g'); }
    forall k' | k' in s.pt ensures Content(s', k') == Content(s, k') {
      assert KeyOk(s, k');
    }
  }

  lemma BindOldBooks(s: Vm, f: nat, k: Key)
    requires Wf(s) && f !in s.role && k in s.pt && s.pt[k].Soft? && k.space in s.groupOf
    ensures KeyOk(s, k) && SlotOk(s, s.pt[k].slot)
    ensures var s' := BindOld(s, f, k);
      && s'.role.Keys == s.role.Keys + {f} && s'.slot.Keys == s.slot.Keys - {s.pt[k].slot}
      && s.pt[k].slot in s.slot && |s'.slot| == |s.slot| - 1
  {
    assert KeyOk(s, k) && SlotOk(s, s.pt[k].slot);
    var s' := BindOld(s, f, k);
    assert |s'.slot.Keys| == |s.slot.Keys| - 1;
  }

  lemma AddTableKeeps(s: Vm, f: nat, sp: nat, path: seq<nat>)
    requires Wf(s) && f !in s.role && f < MAX_PAGE_NUM && (sp, path) !in s.tables && sp in s.groupOf
    requires |path| == 1 || (|path| == 2 && path[1] < 512 && (sp, path[..1]) in s.tables)
    ensures Wf(AddTable(s, f, sp, path)) && View(AddTable(s, f, sp, path)) == View(s)
  {
    var s' := AddTable(s, f, sp, path);
    var g := s.groupOf[sp];
    assert ListOk(s, g);
    DistinctCons(f, s.lists[g]);
    forall k' ensures KeyOk(s', k') { assert KeyOk(s, k'); }
    forall f' ensures FrameOk(s', f') { assert FrameOk(s, f'); }
    forall t' ensures SlotOk(s', t') { assert SlotOk(s, t'); }
    forall tk ensures TableOk(s', tk) && Rooted(s', tk) { assert TableOk(s, tk) && Rooted(s, tk); }
    forall k' ensures Tabled(s', k') { assert Tabled(s, k'); }
    forall g' ensures ListOk(s', g') { assert ListOk(s, g'); }
  }

  lemma PokeKeeps(s: Vm, f: nat, k: Key, page: Page)
    requires Wf(s) && k in s.pt && s.pt[k] == Present(f) && |page| == PAGE_SIZE
    ensures Wf(Poke(s, f, page)) && View(Poke(s, f, page)) == View(s)[k := page]
  {
    var s' := Poke(s, f, page);
    assert KeyOk(s, k) && FrameOk(s, f);
    forall k' ensures KeyOk(s', k') { assert KeyOk(s, k'); }
    forall f' ensures FrameOk(s', f') { assert FrameOk(s, f'); }
    forall t' ensures SlotOk(s', t') { assert SlotOk(s, t'); }
    forall tk ensures TableOk(s', tk) && Rooted(s', tk) { assert TableOk(s, tk) && Rooted(s, tk); }
    forall k' ensures Tabled(s', k') { assert Tabled(s, k'); }
    forall g' ensures ListOk(s', g') { assert ListOk(s, g'); }
    forall k' | k' in s.pt && k' != k ensures Content(s', k') == Content(s, k') {
      assert KeyOk(s, k');
    }
  }
}
