/** Directories as maps from names to inode numbers, and a cache that agrees with them. */
module DirModel {
  import opened Common
  import opened Names
  import opened Dcache
  import opened DirStore
  import FsModel

  const DOT: seq<Byte> := [46]
  const DOTDOT: seq<Byte> := [46, 46]
  const ROOT_INODE := 1

  // ---- a directory as a map ----

  predicate Used(slots: Slots, i: int, key: seq<Byte>) {
    0 <= i < |slots| && slots[i].ino != 0 && Key(slots[i].name) == key
  }

  /** The first used slot with a given name at or after i, or |slots|. */
  function SlotFrom(slots: Slots, key: seq<Byte>, i: nat): (k: nat)
    requires i <= |slots|
    ensures i <= k <= |slots|
    ensures k < |slots| ==> Used(slots, k, key)
    ensures forall j :: i <= j < k ==> !Used(slots, j, key)
    decreases |slots| - i
  {
    if i == |slots| || Used(slots, i, key) then i else SlotFrom(slots, key, i + 1)
  }

  function SlotOf(slots: Slots, key: seq<Byte>): nat { SlotFrom(slots, key, 0) }

  /** No two used slots carry the same name. */
  ghost predicate Unique(slots: Slots) {
    forall i, j :: 0 <= i < j < |slots| && slots[i].ino != 0 ==> !Used(slots, j, Key(slots[i].name))
  }

  function KeySet(slots: Slots): set<seq<Byte>> {
    set i | 0 <= i < |slots| && slots[i].ino != 0 :: Key(slots[i].name)
  }

  lemma KeySetIs(slots: Slots, key: seq<Byte>)
    ensures key in KeySet(slots) <==> SlotOf(slots, key) < |slots|
  {
    if key in KeySet(slots) {
      var i :| 0 <= i < |slots| && slots[i].ino != 0 && Key(slots[i].name) == key;
      assert Used(slots, i, key);
    }
  }

  /** The directory read as a map from names to inode numbers. */
  function NameMap(slots: Slots): map<seq<Byte>, nat> {
    map key | key in KeySet(slots) :: InoOf(slots, key)
  }

  function InoOf(slots: Slots, key: seq<Byte>): nat {
    var k := SlotOf(slots, key);
    if k < |slots| then slots[k].ino else 0
  }

  lemma OnlySlot(slots: Slots, key: seq<Byte>, i: nat)
    requires Unique(slots) && Used(slots, i, key)
    ensures SlotOf(slots, key) == i
  {
    var k := SlotOf(slots, key);
    assert k <= i;
  }

  lemma NoSlot(slots: Slots, key: seq<Byte>)
    requires forall i :: 0 <= i < |slots| ==> !Used(slots, i, key)
    ensures SlotOf(slots, key) == |slots|
  {
  }

  /** slots' is slots with the unused slot i (or a new last one) given to a fresh name. */
  ghost predicate Linked(slots: Slots, slots': Slots, i: nat, d: Dentry) {
    && d.ino != 0 && SlotOf(slots, Key(d.name)) == |slots|
    && i <= |slots| && (i < |slots| ==> slots[i].ino == 0) && slots' == PutSlot(slots, i, d)
  }

  lemma LinkedUnique(slots: Slots, slots': Slots, i: nat, d: Dentry)
    requires Unique(slots) && Linked(slots, slots', i, d)
    ensures Unique(slots')
  {
    assert forall j :: 0 <= j < |slots| && j != i ==> slots'[j] == slots[j];
    forall a, b | 0 <= a < b < |slots'| && slots'[a].ino != 0 ensures !Used(slots', b, Key(slots'[a].name)) {
      if a == i {
        assert !Used(slots, b, Key(d.name));
      } else if b == i {
        assert !Used(slots, a, Key(d.name));
      } else {
        assert !Used(slots, b, Key(slots[a].name));
      }
    }
  }

  lemma LinkedAt(slots: Slots, slots': Slots, i: nat, d: Dentry, key: seq<Byte>)
    requires Unique(slots) && Linked(slots, slots', i, d)
    ensures Unique(slots')
    ensures key == Key(d.name) ==> SlotOf(slots', key) == i
    ensures key != Key(d.name) ==>
              SlotOf(slots', key) == if SlotOf(slots, key) < |slots| then SlotOf(slots, key) else |slots'|
  {
    LinkedUnique(slots, slots', i, d);
    assert forall j :: 0 <= j < |slots| && j != i ==> slots'[j] == slots[j];
    assert forall j, k :: 0 <= j < |slots| && j != i ==> (Used(slots', j, k) <==> Used(slots, j, k));
    if key == Key(d.name) {
      OnlySlot(slots', key, i);
    } else if SlotOf(slots, key) < |slots| {
      OnlySlot(slots', key, SlotOf(slots, key));
    } else {
      NoSlot(slots', key);
    }
  }

  /** Linking a fresh name adds exactly that name. */
  lemma LinkedMap(slots: Slots, slots': Slots, i: nat, d: Dentry)
    requires Unique(slots) && Linked(slots, slots', i, d)
    ensures Unique(slots') && NameMap(slots') == NameMap(slots)[Key(d.name) := d.ino]
  {
    LinkedAt(slots, slots', i, d, []);
    forall key ensures (key in KeySet(slots') <==> key in KeySet(slots) || key == Key(d.name))
      && (key in KeySet(slots') ==> InoOf(slots', key) == if key == Key(d.name) then d.ino else InoOf(slots, key))
    {
      LinkedAt(slots, slots', i, d, key);
      KeySetIs(slots, key);
      KeySetIs(slots', key);
    }
  }

  /** A slot wiped with zeros. */
  const UNUSED := Dentry(Padded([]), 0)

  lemma ErasedAt(slots: Slots, i: nat, key: seq<Byte>)
    requires Unique(slots) && i < |slots| && slots[i].ino != 0
    ensures Unique(slots[i := UNUSED])
    ensures SlotOf(slots[i := UNUSED], key) ==
              if Key(slots[i].name) == key then |slots| else SlotOf(slots, key)
  {
    var slots' := slots[i := UNUSED];
    assert forall j, k :: 0 <= j < |slots| ==> (Used(slots', j, k) <==> j != i && Used(slots, j, k));
    if Key(slots[i].name) == key {
      assert Used(slots, i, key);
      OnlySlot(slots, key, i);
      assert forall j :: 0 <= j < |slots| && Used(slots, j, key) ==> SlotOf(slots, key) == j by {
        forall j | 0 <= j < |slots| && Used(slots, j, key) ensures SlotOf(slots, key) == j { OnlySlot(slots, key, j); }
      }
      NoSlot(slots', key);
    } else if SlotOf(slots, key) < |slots| {
      OnlySlot(slots', key, SlotOf(slots, key));
    } else {
      NoSlot(slots', key);
    }
  }

  /** Erasing a name's slot removes exactly that name. */
  lemma ErasedMap(slots: Slots, key: seq<Byte>)
    requires Unique(slots) && SlotOf(slots, key) < |slots|
    ensures var slots' := slots[SlotOf(slots, key) := UNUSED];
      Unique(slots') && NameMap(slots') == NameMap(slots) - {key}
  {
    var i := SlotOf(slots, key);
    var slots' := slots[i := UNUSED];
    ErasedAt(slots, i, []);
    ErasedKeys(slots, key, slots');
  }

  lemma ErasedKeys(slots: Slots, key: seq<Byte>, slots': Slots)
    requires Unique(slots) && SlotOf(slots, key) < |slots| && slots' == slots[SlotOf(slots, key) := UNUSED]
    ensures NameMap(slots') == NameMap(slots) - {key}
  {
    forall k ensures (k in KeySet(slots') <==> k in KeySet(slots) && k != key)
      && (k in KeySet(slots') ==> InoOf(slots', k) == InoOf(slots, k))
    {
      ErasedKey(slots, key, slots', k);
    }
    assert KeySet(slots') == KeySet(slots) - {key};
  }

  lemma ErasedKey(slots: Slots, key: seq<Byte>, slots': Slots, k: seq<Byte>)
    requires Unique(slots) && SlotOf(slots, key) < |slots| && slots' == slots[SlotOf(slots, key) := UNUSED]
    ensures k in KeySet(slots') <==> k in KeySet(slots) && k != key
    ensures k in KeySet(slots') ==> InoOf(slots', k) == InoOf(slots, k)
  {
    ErasedAt(slots, SlotOf(slots, key), k);
    KeySetIs(slots, k);
    KeySetIs(slots', k);
  }

  // ---- well-formed directories ----

  /** The first two slots are "." and ".."; they can never be removed. */
  ghost predicate DirOk(slots: Slots) {
    Unique(slots) && |slots| >= 2 && Used(slots, 0, DOT) && Used(slots, 1, DOTDOT)
  }

  /** A directory is empty past its first two slots exactly when it holds no other names. */
  lemma EmptyIff(slots: Slots)
    requires DirOk(slots)
    ensures (forall i :: 2 <= i < |slots| ==> slots[i].ino == 0) <==> NameMap(slots).Keys == {DOT, DOTDOT}
  {
    OnlySlot(slots, DOT, 0);
    OnlySlot(slots, DOTDOT, 1);
    KeySetIs(slots, DOT);
    KeySetIs(slots, DOTDOT);
    if forall i :: 2 <= i < |slots| ==> slots[i].ino == 0 {
      forall k | k in KeySet(slots) ensures k in {DOT, DOTDOT} {
        var i :| 0 <= i < |slots| && slots[i].ino != 0 && Key(slots[i].name) == k;
        assert i == 0 || i == 1;
      }
    }
    if NameMap(slots).Keys == {DOT, DOTDOT} {
      forall i | 2 <= i < |slots| ensures slots[i].ino == 0 {
        if slots[i].ino != 0 {
          var k := Key(slots[i].name);
          assert Used(slots, i, k);
          assert k in KeySet(slots);
          assert k in NameMap(slots).Keys;
          OnlySlot(slots, k, i);
          assert false;
        }
      }
    }
  }

  /** The first slot that can be reused, or the end. */
  function FirstFree(slots: Slots): (i: nat)
    ensures i <= |slots| && (i < |slots| ==> slots[i].ino == 0) && forall j :: 0 <= j < i ==> slots[j].ino != 0
    ensures i < |slots| <==> HasUnused(slots)
  {
    FirstFreeFrom(slots, 0)
  }

  function FirstFreeFrom(slots: Slots, i: nat): (k: nat)
    requires i <= |slots|
    ensures i <= k <= |slots| && (k < |slots| ==> slots[k].ino == 0) && forall j :: i <= j < k ==> slots[j].ino != 0
    decreases |slots| - i
  {
    if i == |slots| || slots[i].ino == 0 then i else FirstFreeFrom(slots, i + 1)
  }

  // ---- all directories ----

  type DirView = map<nat, map<seq<Byte>, nat>>

  /** All directories as name maps. */
  function NamesOf(dirs: map<nat, Slots>): DirView {
    map p | p in dirs :: NameMap(dirs[p])
  }

  function WithName(v: DirView, p: nat, key: seq<Byte>, ino: nat): DirView
    requires p in v
  {
    var m: map<seq<Byte>, nat> := v[p][key := ino];
    v[p := m]
  }

  function WithoutName(v: DirView, p: nat, key: seq<Byte>): DirView
    requires p in v
  {
    v[p := v[p] - {key}]
  }

  /** The directories once a name is put into the first reusable slot of p. */
  function LinkedDirs(dirs: map<nat, Slots>, p: nat, name: seq<Byte>, ino: nat): map<nat, Slots>
    requires p in dirs
  {
    dirs[p := PutSlot(dirs[p], FirstFree(dirs[p]), Dentry(Padded(name), ino))]
  }

  /** The directories once the slot of a name is wiped. */
  function ErasedDirs(dirs: map<nat, Slots>, p: nat, key: seq<Byte>): map<nat, Slots>
    requires p in dirs && SlotOf(dirs[p], key) < |dirs[p]|
  {
    dirs[p := dirs[p][SlotOf(dirs[p], key) := UNUSED]]
  }

  ghost predicate UniqueAt(dirs: map<nat, Slots>, p: nat) { p in dirs ==> Unique(dirs[p]) }

  ghost predicate AllUnique(dirs: map<nat, Slots>) { forall p :: UniqueAt(dirs, p) }

  ghost predicate FormedAt(dirs: map<nat, Slots>, p: nat) { p in dirs ==> DirOk(dirs[p]) }

  ghost predicate AllFormed(dirs: map<nat, Slots>) { forall p :: FormedAt(dirs, p) }

  /** Linking a fresh name adds exactly that name, and keeps well-formed directories well formed. */
  lemma LinkedDirsOk(dirs: map<nat, Slots>, p: nat, name: seq<Byte>, ino: nat)
    requires p in dirs && AllUnique(dirs) && ino != 0 && Key(name) !in NameMap(dirs[p])
    ensures AllUnique(LinkedDirs(dirs, p, name, ino))
    ensures NamesOf(LinkedDirs(dirs, p, name, ino)) == WithName(NamesOf(dirs), p, Key(name), ino)
    ensures DirOk(dirs[p]) ==> DirOk(LinkedDirs(dirs, p, name, ino)[p])
    ensures AllFormed(dirs) ==> AllFormed(LinkedDirs(dirs, p, name, ino))
  {
    var slots, i, d := dirs[p], FirstFree(dirs[p]), Dentry(Padded(name), ino);
    KeySetIs(slots, Key(name));
    assert UniqueAt(dirs, p);
    LinkedMap(slots, PutSlot(slots, i, d), i, d);
    var dirs' := LinkedDirs(dirs, p, name, ino);
    forall q ensures UniqueAt(dirs', q) { assert UniqueAt(dirs, q); }
    forall q ensures AllFormed(dirs) ==> FormedAt(dirs', q) {
      if AllFormed(dirs) { assert FormedAt(dirs, q) && FormedAt(dirs, p); }
    }
  }

  /** One more name takes the blocks that its slot still misses; a reused slot misses none. */
  lemma NeedIs(view: map<nat, seq<Byte>>, owner: FsModel.Owners, dirs: map<nat, Slots>, p: nat)
    requires AllStored(view, owner, dirs) && p in dirs
    ensures Need(owner, p, dirs[p]) == FsModel.Missing(owner, p, FsModel.PathTo(BlockOf(FirstFree(dirs[p]))))
    ensures FirstFree(dirs[p]) < |dirs[p]| ==> Need(owner, p, dirs[p]) == 0
  {
    assert StoredAt(view, owner, dirs, p);
  }

  lemma NeedBound(owner: FsModel.Owners, p: nat, slots: Slots)
    ensures Need(owner, p, slots) <= 3
  {
    FsModel.MissingBound(owner, p, FsModel.PathTo(BlockOf(|slots|)));
  }

  /** The first name of a directory without blocks takes one, the second none. */
  lemma NeedFirst(owner: FsModel.Owners, p: nat)
    ensures Need(owner, p, []) == FsModel.Missing(owner, p, FsModel.PathTo(0))
  {
  }

  lemma NeedSecond(view: map<nat, seq<Byte>>, owner: FsModel.Owners, dirs: map<nat, Slots>, p: nat)
    requires AllStored(view, owner, dirs) && p in dirs && |dirs[p]| == 1
    ensures Need(owner, p, dirs[p]) == 0
  {
    assert StoredAt(view, owner, dirs, p) && BlockOf(0) == BlockOf(1);
  }

  lemma SetTwice(dirs: map<nat, Slots>, id: nat, a: Slots, b: Slots)
    ensures dirs[id := a][id := b] == dirs[id := b]
    ensures id in dirs ==> dirs[id := dirs[id]] == dirs
  {
  }

  /** Linking into one directory and changing another do not interfere. */
  lemma LinkedApart(dirs: map<nat, Slots>, id: nat, slots: Slots, p: nat, name: seq<Byte>, ino: nat)
    requires p in dirs && p != id && id !in dirs
    ensures LinkedDirs(dirs[id := slots], p, name, ino) - {id} == LinkedDirs(dirs, p, name, ino)
    ensures LinkedDirs(dirs, p, name, ino) - {id} == LinkedDirs(dirs, p, name, ino)
    ensures dirs[id := slots] - {id} == dirs - {id} == dirs
  {
  }

  /** Wiping an ordinary name's slot removes exactly that name. */
  lemma ErasedDirsOk(dirs: map<nat, Slots>, p: nat, key: seq<Byte>)
    requires p in dirs && AllFormed(dirs) && key != DOT && key != DOTDOT && SlotOf(dirs[p], key) < |dirs[p]|
    ensures AllFormed(ErasedDirs(dirs, p, key))
    ensures NamesOf(ErasedDirs(dirs, p, key)) == WithoutName(NamesOf(dirs), p, key)
  {
    assert FormedAt(dirs, p);
    ErasedMap(dirs[p], key);
    var dirs' := ErasedDirs(dirs, p, key);
    forall q ensures FormedAt(dirs', q) { assert FormedAt(dirs, q); }
  }

  lemma FormedUnique(dirs: map<nat, Slots>)
    requires AllFormed(dirs)
    ensures AllUnique(dirs)
  {
    forall p ensures UniqueAt(dirs, p) { assert FormedAt(dirs, p); }
  }

  lemma DotKeys()
    ensures Key(DOT) == DOT && Key(DOTDOT) == DOTDOT
  {
    assert KeyFrom(DOT, 1) == [];
    assert KeyFrom(DOTDOT, 2) == [];
    assert KeyFrom(DOTDOT, 1) == [46];
  }

  /** The names of a directory just created. */
  function FreshNames(id: nat, parent: nat): map<seq<Byte>, nat> { map[DOT := id, DOTDOT := parent] }

  /** A directory after "." was linked into it. */
  lemma FreshDot(dirs: map<nat, Slots>, dirs1: map<nat, Slots>, id: nat)
    requires AllUnique(dirs) && id in dirs && dirs[id] == [] && id != 0
    requires dirs1 == LinkedDirs(dirs, id, DOT, id)
    ensures dirs1[id] == [Dentry(Padded(DOT), id)] && !HasUnused(dirs1[id]) && NameMap(dirs1[id]) == map[DOT := id]
    ensures AllUnique(dirs1)
  {
    DotKeys();
    LinkedDirsOk(dirs, id, DOT, id);
    assert NameMap(dirs1[id]) == NamesOf(dirs1)[id] && NameMap(dirs[id]) == map[];
  }

  /** A directory after "." and then ".." were linked into it. */
  lemma FreshDir(dirs: map<nat, Slots>, dirs1: map<nat, Slots>, id: nat, parent: nat)
    requires AllUnique(dirs) && id in dirs && parent != 0
    requires dirs[id] == [Dentry(Padded(DOT), id)] && NameMap(dirs[id]) == map[DOT := id] && id != 0
    requires dirs1 == LinkedDirs(dirs, id, DOTDOT, parent)
    ensures DirOk(dirs1[id]) && NameMap(dirs1[id]) == FreshNames(id, parent) && AllUnique(dirs1)
  {
    DotKeys();
    LinkedDirsOk(dirs, id, DOTDOT, parent);
    var slots := dirs1[id];
    assert slots == [Dentry(Padded(DOT), id), Dentry(Padded(DOTDOT), parent)];
    assert Used(slots, 0, DOT) && Used(slots, 1, DOTDOT);
    assert NameMap(slots) == NamesOf(dirs1)[id];
  }

  // ---- the cache never lies ----

  /** What the cache knows about a name is the slot that holds it. About numbers that are not directories it
      may only know something if they were in use once. */
  ghost predicate Coherent(dirs: map<nat, Slots>, types: seq<nat>, table: seq<seq<Entry>>, p: nat, key: seq<Byte>)
    requires |table| == DENTRY_CACHE_BUCKETS
  {
    match Known(table, p, key)
    case None => true
    case Some(e) => if p in dirs then EntryTrue(dirs[p], e, key) else p < |types| && types[p] != FS_TYPE_NONE
  }

  ghost predicate EntryTrue(slots: Slots, e: Entry, key: seq<Byte>) {
    && e.offset % DENTRY_SIZE == 0 && e.offset / DENTRY_SIZE < |slots|
    && slots[e.offset / DENTRY_SIZE] == e.dentry && e.dentry.ino != 0 && Key(e.dentry.name) == key
  }

  ghost predicate AllCoherent(dirs: map<nat, Slots>, types: seq<nat>, table: seq<seq<Entry>>) {
    |table| == DENTRY_CACHE_BUCKETS && forall p, key :: Coherent(dirs, types, table, p, key)
  }

  /** The cache may take up any entry that is in its slot. */
  lemma OfferedCoherent(dirs: map<nat, Slots>, types: seq<nat>, table: seq<seq<Entry>>, table': seq<seq<Entry>>,
                        p: nat, i: nat, enabled: bool, granted: bool)
    requires AllCoherent(dirs, types, table) && |table'| == DENTRY_CACHE_BUCKETS && p in dirs && i < |dirs[p]|
    requires OnlyAt(table, table', p, Key(dirs[p][i].name),
                    AfterPut(enabled, granted, Known(table, p, Key(dirs[p][i].name)),
                             Entry(p, DENTRY_SIZE * i, dirs[p][i])))
    ensures AllCoherent(dirs, types, table')
  {
    var d := dirs[p][i];
    var e := Entry(p, DENTRY_SIZE * i, d);
    assert e.offset % DENTRY_SIZE == 0 && e.offset / DENTRY_SIZE == i;
    assert d.ino != 0 ==> EntryTrue(dirs[p], e, Key(d.name));
    forall q, key ensures Coherent(dirs, types, table', q, key) {
      assert Coherent(dirs, types, table, q, key);
      assert Known(table', q, key) == Known(table, q, key) ||
        (q == p && key == Key(d.name) && d.ino != 0 && Known(table', q, key) == Some(e));
    }
  }

  /** Filling a reusable slot, or adding one, contradicts nothing the cache knows. */
  lemma LinkedCoherent(dirs: map<nat, Slots>, types: seq<nat>, table: seq<seq<Entry>>, p: nat, name: seq<Byte>, ino: nat)
    requires AllCoherent(dirs, types, table) && p in dirs
    ensures AllCoherent(LinkedDirs(dirs, p, name, ino), types, table)
  {
    var dirs' := LinkedDirs(dirs, p, name, ino);
    forall q, key ensures Coherent(dirs', types, table, q, key) { assert Coherent(dirs, types, table, q, key); }
  }

  /** Wiping a name's slot and forgetting the name. */
  lemma ErasedCoherent(dirs: map<nat, Slots>, types: seq<nat>, table: seq<seq<Entry>>, table': seq<seq<Entry>>,
                       p: nat, key: seq<Byte>)
    requires AllCoherent(dirs, types, table) && |table'| == DENTRY_CACHE_BUCKETS && p in dirs && Unique(dirs[p])
    requires SlotOf(dirs[p], key) < |dirs[p]| && OnlyAt(table, table', p, key, None)
    ensures AllCoherent(ErasedDirs(dirs, p, key), types, table')
  {
    var dirs' := ErasedDirs(dirs, p, key);
    forall q, k ensures Coherent(dirs', types, table', q, k) {
      assert Coherent(dirs, types, table, q, k);
      assert Known(table', q, k) == if q == p && k == key then None else Known(table, q, k);
    }
  }

  /** A number that was never used has nothing in the cache, so a new directory may take it. */
  lemma AllocCoherent(dirs: map<nat, Slots>, types: seq<nat>, table: seq<seq<Entry>>, id: nat, kind: nat,
                      dirs': map<nat, Slots>)
    requires AllCoherent(dirs, types, table) && id !in dirs && id < |types| && types[id] == FS_TYPE_NONE
    requires kind != FS_TYPE_NONE && (dirs' == dirs || dirs' == dirs[id := []])
    ensures AllCoherent(dirs', types[id := kind], table) && (AllUnique(dirs) ==> AllUnique(dirs'))
  {
    forall q ensures AllUnique(dirs) ==> UniqueAt(dirs', q) {
      if AllUnique(dirs) { assert UniqueAt(dirs, q); }
    }
    var types' := types[id := kind];
    forall q, k ensures Coherent(dirs', types', table, q, k) { assert Coherent(dirs, types, table, q, k); }
  }

  /** What the cache still knows of a directory that is gone concerns a number in use once. */
  lemma DropCoherent(dirs: map<nat, Slots>, types: seq<nat>, table: seq<seq<Entry>>, id: nat)
    requires AllCoherent(dirs, types, table) && id < |types| && types[id] != FS_TYPE_NONE
    ensures AllCoherent(dirs - {id}, types, table)
    ensures (AllUnique(dirs) ==> AllUnique(dirs - {id})) && (AllFormed(dirs) ==> AllFormed(dirs - {id}))
  {
    var dirs' := dirs - {id};
    forall q ensures (AllUnique(dirs) ==> UniqueAt(dirs', q)) && (AllFormed(dirs) ==> FormedAt(dirs', q)) {
      if AllUnique(dirs) { assert UniqueAt(dirs, q); }
      if AllFormed(dirs) { assert FormedAt(dirs, q); }
    }
    forall q, k ensures Coherent(dirs - {id}, types, table, q, k) { assert Coherent(dirs, types, table, q, k); }
  }

  /** A cache that knows less is still coherent. */
  lemma LessCoherent(dirs: map<nat, Slots>, types: seq<nat>, table: seq<seq<Entry>>, table': seq<seq<Entry>>)
    requires AllCoherent(dirs, types, table) && |table'| == DENTRY_CACHE_BUCKETS
    requires forall q, k :: Known(table', q, k) == None || Known(table', q, k) == Known(table, q, k)
    ensures AllCoherent(dirs, types, table')
  {
    forall q, k ensures Coherent(dirs, types, table', q, k) { assert Coherent(dirs, types, table, q, k); }
  }
}
