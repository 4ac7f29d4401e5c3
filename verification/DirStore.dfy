/** Directories as files: entries of 32 bytes in the contents of an inode, never across two blocks. */
module DirStore {
  import opened Common
  import opened Names
  import opened FsModel
  import FileSystem

  const DENTRY_SIZE := 32
  const INODE_COUNT := 32768
  const FS_TYPE_NONE := 0
  const FS_TYPE_DIR := 1
  const FS_TYPE_FILE := 2

  type Slots = seq<Dentry>

  // ---- one entry ----

  /** An entry as the on-disk record can hold it: a 28-byte name and a 32-bit number. */
  predicate Storable(d: Dentry) { |d.name| == MAX_FILE_NAME && d.ino < UINT32 }

  function Encode(d: Dentry): (bytes: seq<Byte>)
    requires Storable(d)
    ensures |bytes| == DENTRY_SIZE
  {
    d.name + [d.ino % 256, d.ino / 256 % 256, d.ino / 65536 % 256, d.ino / 16777216]
  }

  function Decode(bytes: seq<Byte>): Dentry
    requires |bytes| == DENTRY_SIZE
  {
    var b0: nat, b1: nat, b2: nat, b3: nat := bytes[28], bytes[29], bytes[30], bytes[31];
    Dentry(bytes[..MAX_FILE_NAME], b0 + 256 * b1 + 65536 * b2 + 16777216 * b3)
  }

  /** The name comes first, then the number, low byte first. */
  lemma EncodeLayout(d: Dentry)
    requires Storable(d)
    ensures Encode(d)[..28] == d.name
    ensures var b0: nat, b1: nat, b2: nat, b3: nat := Encode(d)[28], Encode(d)[29], Encode(d)[30], Encode(d)[31];
      d.ino == b0 + 256 * b1 + 65536 * b2 + 16777216 * b3
  {
    assert d.ino / 256 / 256 == d.ino / 65536 && d.ino / 65536 / 256 == d.ino / 16777216;
  }

  lemma DecodeEncode(d: Dentry)
    requires Storable(d)
    ensures Decode(Encode(d)) == d
  {
    assert Encode(d)[..MAX_FILE_NAME] == d.name;
  }

  lemma EncodeDecode(bytes: seq<Byte>)
    requires |bytes| == DENTRY_SIZE
    ensures Storable(Decode(bytes)) && Encode(Decode(bytes)) == bytes
  {
    var n := Decode(bytes).ino;
    var b1: nat, b2: nat, b3: nat := bytes[29], bytes[30], bytes[31];
    assert n / 256 == b1 + 256 * b2 + 65536 * b3;
    assert n / 65536 == b2 + 256 * b3;
  }

  // ---- a whole directory ----

  predicate AllStorable(slots: Slots) { forall d :: d in slots ==> Storable(d) }

  /** The bytes of a directory. */
  function Image(slots: Slots): (bytes: seq<Byte>)
    requires AllStorable(slots)
    ensures |bytes| == DENTRY_SIZE * |slots|
  {
    seq(DENTRY_SIZE * |slots|, k requires 0 <= k < DENTRY_SIZE * |slots| =>
      Encode(slots[k / DENTRY_SIZE])[k % DENTRY_SIZE])
  }

  /** The directory with entry d at slot i, which may be the one after the last. */
  function PutSlot(slots: Slots, i: nat, d: Dentry): Slots
    requires i <= |slots|
  {
    if i < |slots| then slots[i := d] else slots + [d]
  }

  /** The record at a slot's offset decodes to its entry. */
  lemma ImageRead(slots: Slots, i: nat)
    requires AllStorable(slots) && i < |slots| && DENTRY_SIZE * |slots| < UINT32
    ensures ReadSpec(Image(slots), DENTRY_SIZE * i, DENTRY_SIZE) == Encode(slots[i])
  {
    var got := ReadSpec(Image(slots), DENTRY_SIZE * i, DENTRY_SIZE);
    assert DENTRY_SIZE * i + DENTRY_SIZE <= DENTRY_SIZE * |slots|;
    forall k | 0 <= k < DENTRY_SIZE ensures got[k] == Encode(slots[i])[k] {
      assert (DENTRY_SIZE * i + k) / DENTRY_SIZE == i && (DENTRY_SIZE * i + k) % DENTRY_SIZE == k;
    }
  }

  /** Writing a record at a slot's offset changes that entry and no other. */
  lemma ImageWrite(slots: Slots, i: nat, d: Dentry)
    requires AllStorable(slots) && Storable(d) && i <= |slots|
    ensures AllStorable(PutSlot(slots, i, d))
    ensures Overlay(Image(slots), DENTRY_SIZE * i, Encode(d)) == Image(PutSlot(slots, i, d))
  {
    var slots' := PutSlot(slots, i, d);
    var got, want := Overlay(Image(slots), DENTRY_SIZE * i, Encode(d)), Image(slots');
    assert |got| == |want|;
    forall k | 0 <= k < |want| ensures got[k] == want[k] {
      assert DENTRY_SIZE * (k / DENTRY_SIZE) + k % DENTRY_SIZE == k;
      if k / DENTRY_SIZE == i {
        assert got[k] == Encode(d)[k - DENTRY_SIZE * i];
      } else {
        assert k < DENTRY_SIZE * i || DENTRY_SIZE * i + DENTRY_SIZE <= k;
        assert slots'[k / DENTRY_SIZE] == slots[k / DENTRY_SIZE];
      }
    }
  }

  /** The block of a directory that holds slot i. */
  function BlockOf(i: nat): nat { DENTRY_SIZE * i / BLOCK_SIZE }

  /** A record never straddles a block, and slots share blocks in order. */
  lemma SlotInBlock(i: nat)
    ensures OneBlock(DENTRY_SIZE * i, DENTRY_SIZE)
    ensures BlockOf(i) == i / 128
  {
  }

  /** A directory is stored as the contents of inode p, with every block it reaches allocated. */
  ghost predicate Stored(view: map<nat, seq<Byte>>, owner: Owners, p: nat, slots: Slots) {
    && p in view && AllStorable(slots) && view[p] == Image(slots)
    && forall i :: 0 <= i < |slots| ==> Missing(owner, p, PathTo(BlockOf(i))) == 0
  }

  /** A stored directory is far smaller than 32-bit offsets allow: the disk is. */
  lemma StoredBound(owner: Owners, p: nat, slots: Slots)
    requires forall i :: 0 <= i < |slots| ==> Missing(owner, p, PathTo(BlockOf(i))) == 0
    requires |owner| <= BLOCK_COUNT
    ensures DENTRY_SIZE * |slots| + DENTRY_SIZE < UINT32
  {
    var n := (|slots| + 127) / 128;
    forall m | 0 <= m < n ensures Missing(owner, p, PathTo(m)) == 0 {
      SlotInBlock(128 * m);
      assert BlockOf(128 * m) == m;
    }
    var _ := MappedBound(owner, p, n);
  }

  /** Filling slot i of a directory keeps its other slots' blocks in place. */
  lemma StoredWrite(view: map<nat, seq<Byte>>, owner: Owners, owner': Owners, p: nat, slots: Slots, i: nat, d: Dentry)
    requires Stored(view, owner, p, slots) && i <= |slots| && Storable(d) && Grew(owner, owner', p)
    requires Missing(owner', p, PathTo(BlockOf(i))) == 0
    ensures Stored(view[p := Overlay(view[p], DENTRY_SIZE * i, Encode(d))], owner', p, PutSlot(slots, i, d))
  {
    ImageWrite(slots, i, d);
    forall j | 0 <= j < |PutSlot(slots, i, d)| ensures Missing(owner', p, PathTo(BlockOf(j))) == 0 {
      GrewMissing(owner, owner', p, p, PathTo(BlockOf(j)));
    }
  }

  lemma StoredGrew(view: map<nat, seq<Byte>>, view': map<nat, seq<Byte>>, owner: Owners, owner': Owners, id: nat,
                   p: nat, slots: Slots)
    requires Stored(view, owner, p, slots) && Grew(owner, owner', id) && p in view' && view'[p] == view[p]
    ensures Stored(view', owner', p, slots)
  {
    forall j | 0 <= j < |slots| ensures Missing(owner', p, PathTo(BlockOf(j))) == 0 {
      GrewMissing(owner, owner', id, p, PathTo(BlockOf(j)));
    }
  }

  lemma StoredDropped(view: map<nat, seq<Byte>>, owner: Owners, owner': Owners, id: nat, p: nat, slots: Slots)
    requires Stored(view, owner, p, slots) && p != id && (forall v :: v in owner' <==> v in owner && owner[v].0 != id)
    requires forall v :: v in owner' ==> owner'[v] == owner[v]
    ensures Stored(view - {id}, owner', p, slots)
  {
    forall j | 0 <= j < |slots| ensures Missing(owner', p, PathTo(BlockOf(j))) == 0 {
      DroppedMissing(owner, owner', id, p, PathTo(BlockOf(j)));
    }
  }

  ghost predicate StoredAt(view: map<nat, seq<Byte>>, owner: Owners, dirs: map<nat, Slots>, p: nat) {
    p in dirs ==> Stored(view, owner, p, dirs[p])
  }

  ghost predicate AllStored(view: map<nat, seq<Byte>>, owner: Owners, dirs: map<nat, Slots>) {
    forall p :: StoredAt(view, owner, dirs, p)
  }

  /** Work on inode id alone leaves every other directory stored. */
  lemma OthersStored(view: map<nat, seq<Byte>>, view': map<nat, seq<Byte>>, owner: Owners, owner': Owners, id: nat,
                     dirs: map<nat, Slots>, dirs': map<nat, Slots>)
    requires AllStored(view, owner, dirs) && Grew(owner, owner', id)
    requires forall p :: p in view && p != id ==> p in view' && view'[p] == view[p]
    requires forall p :: p in dirs' && p != id ==> p in dirs && dirs'[p] == dirs[p]
    requires id in dirs' ==> Stored(view', owner', id, dirs'[id])
    ensures AllStored(view', owner', dirs')
  {
    forall p ensures StoredAt(view', owner', dirs', p) {
      assert StoredAt(view, owner, dirs, p);
      if p in dirs' && p != id { StoredGrew(view, view', owner, owner', id, p, dirs[p]); }
    }
  }

  /** A record is written whole or not at all; either way every directory is still stored. */
  lemma SlotWritten(view: map<nat, seq<Byte>>, view': map<nat, seq<Byte>>, owner: Owners, owner': Owners,
                    dirs: map<nat, Slots>, p: nat, i: nat, d: Dentry, total: nat)
    requires AllStored(view, owner, dirs) && p in dirs && i <= |dirs[p]| && Storable(d) && Grew(owner, owner', p)
    requires total == 0 || (total == DENTRY_SIZE && Missing(owner', p, PathTo(BlockOf(i))) == 0)
    requires p in view && view' == view[p := Overlay(view[p], DENTRY_SIZE * i, Encode(d)[..total])]
    ensures view'.Keys == view.Keys && dirs[p := PutSlot(dirs[p], i, d)].Keys == dirs.Keys
    ensures AllStored(view', owner', if total == DENTRY_SIZE then dirs[p := PutSlot(dirs[p], i, d)] else dirs)
  {
    assert StoredAt(view, owner, dirs, p);
    if total == DENTRY_SIZE {
      assert Encode(d)[..total] == Encode(d);
      StoredWrite(view, owner, owner', p, dirs[p], i, d);
      OthersStored(view, view', owner, owner', p, dirs, dirs[p := PutSlot(dirs[p], i, d)]);
    } else {
      SlotInBlock(i);
      assert |view[p]| >= DENTRY_SIZE * i;
      assert Overlay(view[p], DENTRY_SIZE * i, Encode(d)[..0]) == view[p];
      StoredGrew(view, view', owner, owner', p, p, dirs[p]);
      OthersStored(view, view', owner, owner', p, dirs, dirs);
    }
  }

  /** Whether some slot can be reused. */
  predicate HasUnused(slots: Slots) { exists i :: 0 <= i < |slots| && slots[i].ino == 0 }

  /** The blocks that one more name in directory p takes. */
  ghost function Need(owner: Owners, p: nat, slots: Slots): nat {
    if HasUnused(slots) then 0 else Missing(owner, p, PathTo(BlockOf(|slots|)))
  }

  /** A live inode has a number in the table and a type; it is a directory if it is of that type. */
  ghost predicate TypedAt(live: set<nat>, types: seq<nat>, dirs: set<nat>, id: nat) {
    && (id in live ==> 0 < id < |types| && types[id] != FS_TYPE_NONE)
    && (id in dirs <==> id in live && types[id] == FS_TYPE_DIR)
  }

  ghost predicate Typed(live: set<nat>, types: seq<nat>, dirs: set<nat>) {
    |types| == INODE_COUNT && forall id :: TypedAt(live, types, dirs, id)
  }

  lemma TypedAlloc(live: set<nat>, types: seq<nat>, dirs: set<nat>, id: nat, kind: nat)
    requires Typed(live, types, dirs) && 0 < id < INODE_COUNT && kind != FS_TYPE_NONE
    requires types[id] == FS_TYPE_NONE
    ensures id !in live && id !in dirs
    ensures Typed(live + {id}, types[id := kind], if kind == FS_TYPE_DIR then dirs + {id} else dirs)
  {
    assert TypedAt(live, types, dirs, id);
    var dirs' := if kind == FS_TYPE_DIR then dirs + {id} else dirs;
    var live', types' := live + {id}, types[id := kind];
    forall q ensures TypedAt(live', types', dirs', q) { assert TypedAt(live, types, dirs, q); }
  }

  /** An empty inode of a free number, among the directories if it is one. */
  lemma StoredAlloc(view: map<nat, seq<Byte>>, owner: Owners, types: seq<nat>, dirs: map<nat, Slots>, id: nat,
                    kind: nat, dirs': map<nat, Slots>)
    requires Typed(view.Keys, types, dirs.Keys) && AllStored(view, owner, dirs) && kind != FS_TYPE_NONE
    requires 0 < id < INODE_COUNT && types[id] == FS_TYPE_NONE
    requires dirs' == if kind == FS_TYPE_DIR then dirs[id := []] else dirs
    ensures id !in view && id !in dirs
    ensures Typed(view[id := []].Keys, types[id := kind], dirs'.Keys) && AllStored(view[id := []], owner, dirs')
  {
    TypedAlloc(view.Keys, types, dirs.Keys, id, kind);
    assert view[id := []].Keys == view.Keys + {id};
    assert kind == FS_TYPE_DIR ==> dirs'.Keys == dirs.Keys + {id};
    OthersStored(view, view[id := []], owner, owner, id, dirs, dirs');
  }

  lemma TypedDrop(live: set<nat>, types: seq<nat>, dirs: set<nat>, id: nat)
    requires Typed(live, types, dirs)
    ensures Typed(live - {id}, types, dirs - {id})
  {
    forall q ensures TypedAt(live - {id}, types, dirs - {id}, q) { assert TypedAt(live, types, dirs, q); }
  }

  /** Without inode id and its blocks, everything else is stored as before. */
  lemma StoredDrop(view: map<nat, seq<Byte>>, owner: Owners, owner': Owners, types: seq<nat>, dirs: map<nat, Slots>,
                   id: nat)
    requires Typed(view.Keys, types, dirs.Keys) && AllStored(view, owner, dirs)
    requires forall v :: v in owner' <==> v in owner && owner[v].0 != id
    requires forall v :: v in owner' ==> owner'[v] == owner[v]
    ensures Typed((view - {id}).Keys, types, (dirs - {id}).Keys) && AllStored(view - {id}, owner', dirs - {id})
  {
    TypedDrop(view.Keys, types, dirs.Keys, id);
    assert (view - {id}).Keys == view.Keys - {id} && (dirs - {id}).Keys == dirs.Keys - {id};
    forall q ensures StoredAt(view - {id}, owner', dirs - {id}, q) {
      assert StoredAt(view, owner, dirs, q);
      if q in dirs && q != id { StoredDropped(view, owner, owner', id, q, dirs[q]); }
    }
  }

  /** The least number from i up whose type is free, or the end of the table. */
  function FreeNumber(types: seq<nat>, i: nat): (n: nat)
    requires i <= |types|
    ensures i <= n <= |types| && (n < |types| ==> types[n] == FS_TYPE_NONE)
    ensures forall k :: i <= k < n ==> types[k] != FS_TYPE_NONE
    decreases |types| - i
  {
    if i == |types| || types[i] == FS_TYPE_NONE then i else FreeNumber(types, i + 1)
  }

  /** Every file outside s was there before, with the same bytes. */
  ghost predicate KeptBut(files: map<nat, File>, files': map<nat, File>, s: set<nat>) {
    forall x :: x in files' && x !in s ==> x in files && files'[x] == files[x]
  }

  class Store {
    const fs: FileSystem.Fs
    var types: seq<nat>             // the type field of every inode on disk; 0 is free
    var links: seq<nat>             // the link counts
    ghost var dirs: map<nat, Slots> // the directories as sequences of entries

    ghost predicate Valid()
      reads this, fs, fs.cache, fs.cache.slots
    {
      && fs.Valid() && fs.cache.pins == map[] && |links| == INODE_COUNT
      && Typed(fs.View().Keys, types, dirs.Keys)
      && AllStored(fs.View(), fs.owner, dirs)
    }

    ghost function Repr(): set<object>
      reads this
    {
      {this, fs, fs.cache, fs.cache.slots}
    }

    /** The files, the directories, the types and the block ownership are all as before. */
    twostate predicate Unmoved()
      reads this, fs, fs.cache
    {
      && fs.Files() == old(fs.Files())
      && dirs == old(dirs) && types == old(types) && links == old(links)
      && fs.owner == old(fs.owner) && fs.usedBlock == old(fs.usedBlock)
      && fs.inodes.Keys == old(fs.inodes).Keys
    }

    /** A directory is a live inode of that type. */
    lemma DirIsLive(p: nat)
      requires Valid() && p in dirs
      ensures 0 < p < INODE_COUNT && types[p] == FS_TYPE_DIR && p in fs.inodes
    {
      assert TypedAt(fs.View().Keys, types, dirs.Keys, p);
    }

    constructor (disk: Disk)
      requires Geometry(disk) && forall n :: !Bit(disk, n)
      ensures Valid() && fresh(Repr()) && dirs == map[] && types == seq(INODE_COUNT, _ => FS_TYPE_NONE)
      ensures fs.usedBlock == 0 && fs.inodes == map[]
    {
      fs := new FileSystem.Fs(disk);
      types, links := seq(INODE_COUNT, _ => FS_TYPE_NONE), seq(INODE_COUNT, _ => 0);
      dirs := map[];
    }

    /** A directory's bytes are its entries, and one more entry stays within 32-bit offsets. */
    lemma Fits(p: nat)
      requires Valid() && p in dirs
      ensures p in fs.inodes && Stored(fs.View(), fs.owner, p, dirs[p])
      ensures DENTRY_SIZE * |dirs[p]| + DENTRY_SIZE < UINT32 && fs.usedBlock <= BLOCK_COUNT
    {
      assert StoredAt(fs.View(), fs.owner, dirs, p);
      OwnerBound(fs.cache.flat, fs.inodes, fs.owner);
      StoredBound(fs.owner, p, dirs[p]);
    }

    /** The number of slots the file's size covers. */
    method Size(p: nat) returns (n: nat)
      requires Valid() && p in dirs
      ensures n == |dirs[p]|
    {
      assert StoredAt(fs.View(), fs.owner, dirs, p);
      n := fs.inodes[p].size / DENTRY_SIZE;
    }

    /** Reads one entry. It is never cut short, and no block is allocated for it. */
    method ReadSlot(p: nat, i: nat) returns (d: Dentry)
      requires Valid() && p in dirs && i < |dirs[p]|
      modifies fs, fs.cache, fs.cache.slots
      ensures Valid() && Unmoved() && fs.View() == old(fs.View())
      ensures d == dirs[p][i]
    {
      Fits(p);
      SlotInBlock(i);
      ImageRead(dirs[p], i);
      ghost var view := fs.View();
      var bytes := fs.Read(p, DENTRY_SIZE * i, DENTRY_SIZE);
      DecodeEncode(dirs[p][i]);
      assert fs.View().Keys == view.Keys && view.Keys == old(fs.inodes).Keys;
      d := Decode(bytes);
    }

    /** Writes the bytes of one entry, all or none of them. */
    method WriteRecord(p: nat, i: nat, d: Dentry) returns (total: nat)
      requires Valid() && p in dirs && i <= |dirs[p]| && Storable(d)
      modifies fs, fs.cache, fs.cache.slots
      ensures fs.Valid() && fs.cache.pins == map[] && Grew(old(fs.owner), fs.owner, p)
      ensures fs.inodes.Keys == old(fs.inodes).Keys
      ensures total == 0 || (total == DENTRY_SIZE && Missing(fs.owner, p, PathTo(BlockOf(i))) == 0)
      ensures p in old(fs.View()) && KeptBut(old(fs.Files()), fs.Files(), {p})
      ensures fs.View() == old(fs.View())[p := Overlay(old(fs.View())[p], DENTRY_SIZE * i, Encode(d)[..total])]
      ensures total == DENTRY_SIZE <==> old(fs.usedBlock) + Missing(old(fs.owner), p, PathTo(BlockOf(i))) <= BLOCK_COUNT
      ensures total == DENTRY_SIZE ==> fs.usedBlock == old(fs.usedBlock) + Missing(old(fs.owner), p, PathTo(BlockOf(i)))
    {
      Fits(p);
      SlotInBlock(i);
      ghost var files := fs.Files();
      total := fs.Write(p, DENTRY_SIZE * i, Encode(d));
      BytesWritten(files, p, DENTRY_SIZE * i, Encode(d)[..total]);
    }

    /** Writes one entry: over an existing one it cannot fail, and a new last one fails exactly when it needs
        more blocks than are free. */
    method WriteSlot(p: nat, i: nat, d: Dentry) returns (ok: bool)
      requires Valid() && p in dirs && i <= |dirs[p]| && Storable(d)
      modifies this`dirs, fs, fs.cache, fs.cache.slots
      ensures Valid() && types == old(types) && fs.inodes.Keys == old(fs.inodes).Keys && Grew(old(fs.owner), fs.owner, p)
      ensures ok <==>
        i < |old(dirs)[p]| || old(fs.usedBlock) + Missing(old(fs.owner), p, PathTo(BlockOf(i))) <= BLOCK_COUNT
      ensures ok ==> fs.usedBlock == old(fs.usedBlock) + Missing(old(fs.owner), p, PathTo(BlockOf(i)))
      ensures dirs == if ok then old(dirs)[p := PutSlot(old(dirs)[p], i, d)] else old(dirs)
      ensures KeptBut(old(fs.Files()), fs.Files(), {p})
    {
      ghost var view, owner := fs.View(), fs.owner;
      Fits(p);
      var total := WriteRecord(p, i, d);
      SlotWritten(view, fs.View(), owner, fs.owner, dirs, p, i, d, total);
      ok := total == DENTRY_SIZE;
      if ok {
        dirs := dirs[p := PutSlot(dirs[p], i, d)];
      }
    }

    /** Looks for a free number, from 1 up. */
    method FindNumber() returns (id: nat)
      requires |types| == INODE_COUNT
      ensures id == FreeNumber(types, 1)
    {
      id := 1;
      while id < INODE_COUNT && types[id] != FS_TYPE_NONE
        invariant 1 <= id <= INODE_COUNT && FreeNumber(types, 1) == FreeNumber(types, id)
      {
        id := id + 1;
      }
    }

    /** Makes an empty inode of a free number. */
    method Install(id: nat, kind: nat)
      requires Valid() && (kind == FS_TYPE_DIR || kind == FS_TYPE_FILE)
      requires 0 < id < INODE_COUNT && types[id] == FS_TYPE_NONE
      modifies this, fs`inodes
      ensures Valid() && fs.owner == old(fs.owner) && fs.usedBlock == old(fs.usedBlock)
      ensures types == old(types)[id := kind] && links == old(links)[id := 0] && id !in old(dirs) && id !in old(fs.inodes)
      ensures fs.inodes.Keys == old(fs.inodes).Keys + {id} && fs.View() == old(fs.View())[id := []]
      ensures fs.Files() == old(fs.Files())[id := EmptyFile()]
      ensures Missing(fs.owner, id, PathTo(0)) == 1
      ensures dirs == if kind == FS_TYPE_DIR then old(dirs)[id := []] else old(dirs)
    {
      ghost var dirs' := if kind == FS_TYPE_DIR then dirs[id := []] else dirs;
      StoredAlloc(fs.View(), fs.owner, types, dirs, id, kind, dirs');
      FirstBlock(fs.cache.flat, fs.inodes, fs.owner, id);
      fs.Create(id);
      types, links, dirs := types[id := kind], links[id := 0], dirs';
    }

    /** Takes the least number whose type on disk is still free; the kernel halts when there is none. */
    method InodeAlloc(kind: nat) returns (ok: bool, id: nat)
      requires Valid() && (kind == FS_TYPE_DIR || kind == FS_TYPE_FILE)
      modifies this, fs`inodes
      ensures Valid() && fs.owner == old(fs.owner) && fs.usedBlock == old(fs.usedBlock)
      ensures id == FreeNumber(old(types), 1) && (ok <==> id < INODE_COUNT)
      ensures !ok ==> dirs == old(dirs) && types == old(types) && links == old(links) && fs.inodes == old(fs.inodes)
      ensures ok ==>
        && types == old(types)[id := kind] && links == old(links)[id := 0] && id !in old(dirs) && id !in old(fs.inodes)
        && fs.inodes.Keys == old(fs.inodes).Keys + {id} && fs.View() == old(fs.View())[id := []]
        && fs.Files() == old(fs.Files())[id := EmptyFile()]
        && Missing(fs.owner, id, PathTo(0)) == 1
        && dirs == if kind == FS_TYPE_DIR then old(dirs)[id := []] else old(dirs)
    {
      id := FindNumber();
      ok := id < INODE_COUNT;
      if ok {
        Install(id, kind);
      }
    }

    /** Deletes an inode: its blocks are free again, its number is not. */
    method InodeDelete(id: nat)
      requires Valid() && id in fs.inodes
      modifies this`dirs, fs, fs.cache, fs.cache.slots
      ensures Valid() && dirs == old(dirs) - {id} && types == old(types) && fs.View() == old(fs.View()) - {id}
      ensures fs.Files() == old(fs.Files()) - {id}
      ensures fs.inodes.Keys == old(fs.inodes).Keys - {id}
      ensures forall v :: v in fs.owner <==> v in old(fs.owner) && old(fs.owner)[v].0 != id
    {
      ghost var view, owner := fs.View(), fs.owner;
      fs.Delete(id);
      StoredDrop(view, owner, fs.owner, types, dirs, id);
      dirs := dirs - {id};
    }

    /** Writing a file that is not a directory changes that file and no directory. */
    method WriteFile(id: nat, offset: nat, src: seq<Byte>) returns (total: nat)
      requires Valid() && id in fs.inodes && id !in dirs && offset < UINT32 && |src| < UINT32
      modifies fs, fs.cache, fs.cache.slots
      ensures Valid() && dirs == old(dirs) && types == old(types) && fs.inodes.Keys == old(fs.inodes).Keys
      ensures total <= |src| && (total < |src| ==> fs.usedBlock == BLOCK_COUNT)
      ensures fs.Files() == old(fs.Files())[id := Written(old(fs.Files())[id], offset, src[..total])]
    {
      ghost var files, view, owner := fs.Files(), fs.View(), fs.owner;
      total := fs.Write(id, offset, src);
      BytesPut(files, id, fs.Files()[id]);
      if total < |src| { fs.FullIsAllUsed(); }
      assert fs.View().Keys == view.Keys && view.Keys == old(fs.inodes).Keys;
      assert TypedAt(view.Keys, types, dirs.Keys, id);
      OthersStored(view, fs.View(), owner, fs.owner, id, dirs, dirs);
    }
  }
}
