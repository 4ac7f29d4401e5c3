/** The directory operations, with the dentry cache in front and the disk below: whatever either does, the
    directories behave as a tree of finite maps from names to inode numbers. */
module Directory {
  import opened Common
  import opened Names
  import opened Dcache
  import opened DirStore
  import opened DirModel
  import opened DirTree
  import FsModel

  class Directories {
    const cache: Cache
    const store: Store

    /** No directory has a name twice, and the cache agrees with the slots. */
    ghost predicate Sound()
      reads this, cache, store, store.fs, store.fs.cache, store.fs.cache.slots
    {
      && cache.Valid() && store.Valid()
      && AllUnique(store.dirs) && AllCoherent(store.dirs, store.types, cache.table)
    }

    ghost function Now(): Tree
      reads this, store, store.fs
    {
      Tree(NamesOf(store.dirs), store.types, store.fs.inodes.Keys, store.links)
    }

    ghost predicate Valid()
      reads this, cache, store, store.fs, store.fs.cache, store.fs.cache.slots
    {
      Sound() && AllFormed(store.dirs) && TreeOk(Now())
    }

    /** Nothing but the caches changed. */
    twostate predicate Unmoved()
      reads this, cache, store, store.fs, store.fs.cache
    {
      store.Unmoved() && cache.enabled == old(cache.enabled)
    }

    /** What every inode holds. */
    ghost function Files(): map<nat, FsModel.File>
      reads this, store, store.fs, store.fs.cache
    {
      store.fs.Files()
    }

    /** There are blocks for n more. */
    ghost predicate Room(n: nat)
      reads this, store, store.fs
    {
      store.fs.usedBlock + n <= FsModel.BLOCK_COUNT
    }

    /** The blocks that one more name in directory p takes. */
    ghost function NeedIn(p: nat): nat
      reads this, store, store.fs
      requires p in store.dirs
    {
      Need(store.fs.owner, p, store.dirs[p])
    }

    /** A file system just made: the root holds "." and "..", both itself. */
    constructor (disk: FsModel.Disk)
      requires FsModel.Geometry(disk) && forall n :: !FsModel.Bit(disk, n)
      ensures Valid() && cache.enabled && Clean(Now())
      ensures Now().names == map[ROOT_INODE := FreshNames(ROOT_INODE, ROOT_INODE)]
      ensures fresh(cache) && fresh(store.Repr())
    {
      cache := new Cache();
      store := new Store(disk);
      new;
      forall p, key ensures Coherent(store.dirs, store.types, cache.table, p, key) { assert cache.Knows(p, key) == None; }
      MakeRoot();
    }

    /** Offers the entry in slot i to the cache, which may have no memory for it. */
    method Offer(p: nat, i: nat, d: Dentry)
      requires Sound() && p in store.dirs && i < |store.dirs[p]| && d == store.dirs[p][i]
      modifies cache
      ensures Sound() && cache.enabled == old(cache.enabled)
    {
      var granted: bool := *;
      ghost var table := cache.table;
      cache.Put(p, d, DENTRY_SIZE * i, granted);
      OfferedCoherent(store.dirs, store.types, table, cache.table, p, i, cache.enabled, granted);
    }

    /** Looks a name up, first in the cache and then by scanning: the answer is the map's, and the offset is
        that of the slot holding the name. */
    method Lookup(p: nat, name: seq<Byte>) returns (found: bool, ino: nat, offset: nat)
      requires Sound() && p in store.dirs
      modifies cache, store.fs, store.fs.cache, store.fs.cache.slots
      ensures Sound() && Unmoved()
      ensures found <==> Key(name) in NameMap(store.dirs[p])
      ensures found ==> ino == NameMap(store.dirs[p])[Key(name)]
      ensures found ==>
        SlotOf(store.dirs[p], Key(name)) < |store.dirs[p]| && offset == DENTRY_SIZE * SlotOf(store.dirs[p], Key(name))
    {
      ghost var key, slots := Key(name), store.dirs[p];
      KeySetIs(slots, key);
      assert UniqueAt(store.dirs, p);
      var hit := cache.Get(p, name);
      if hit.Some? {
        assert Coherent(store.dirs, store.types, cache.table, p, key);
        OnlySlot(slots, key, hit.value.offset / DENTRY_SIZE);
        return true, hit.value.dentry.ino, hit.value.offset;
      }
      var n := store.Size(p);
      var i := 0;
      while i < n
        invariant 0 <= i <= n && Sound() && Unmoved()
        invariant forall j :: 0 <= j < i ==> !Used(slots, j, key)
      {
        var d := store.ReadSlot(p, i);
        if d.ino != 0 {
          Offer(p, i, d);
          var r := Compare(d.name, name);
          if r == 0 {
            OnlySlot(slots, key, i);
            return true, d.ino, DENTRY_SIZE * i;
          }
        }
        i := i + 1;
      }
      NoSlot(slots, key);
      found, ino, offset := false, 0, 0;
    }

    /** The first slot that can be reused, or the end. */
    method FirstUnused(p: nat) returns (i: nat)
      requires Sound() && p in store.dirs
      modifies store.fs, store.fs.cache, store.fs.cache.slots
      ensures Sound() && Unmoved()
      ensures i == FirstFree(store.dirs[p])
    {
      var n := store.Size(p);
      i := 0;
      while i < n
        invariant i <= n && Sound() && Unmoved()
        invariant forall j :: 0 <= j < i ==> store.dirs[p][j].ino != 0
      {
        var d := store.ReadSlot(p, i);
        if d.ino == 0 {
          return;
        }
        i := i + 1;
      }
    }

    /** Adds a name unless it exists; it fails exactly when the entry needs more blocks than are free. */
    method Link(p: nat, name: seq<Byte>, ino: nat) returns (r: Status)
      requires Sound() && p in store.dirs && 0 < ino < INODE_COUNT
      modifies cache, store`dirs, store.fs, store.fs.cache, store.fs.cache.slots
      ensures Sound() && cache.enabled == old(cache.enabled) && store.types == old(store.types)
      ensures store.fs.inodes.Keys == old(store.fs.inodes).Keys
      ensures FsModel.Grew(old(store.fs.owner), store.fs.owner, p)
      ensures r == if Key(name) in NameMap(old(store.dirs)[p]) then Exists
                   else if old(Room(NeedIn(p))) then Done
                   else Failed
      ensures store.dirs == if r == Done then LinkedDirs(old(store.dirs), p, name, ino) else old(store.dirs)
      ensures r == Done ==> store.fs.usedBlock == old(store.fs.usedBlock) + old(NeedIn(p))
      ensures KeptBut(old(Files()), Files(), {p})
    {
      var found, _, _ := Lookup(p, name);
      if found {
        return Exists;
      }
      var i := FirstUnused(p);
      var stored := CopyName(name);
      var d := Dentry(stored, ino);
      NeedIs(store.fs.View(), store.fs.owner, store.dirs, p);
      FsModel.OwnerBound(store.fs.cache.flat, store.fs.inodes, store.fs.owner);
      LinkedDirsOk(store.dirs, p, name, ino);
      LinkedCoherent(store.dirs, store.types, cache.table, p, name, ino);
      var ok := store.WriteSlot(p, i, d);
      if !ok {
        return Failed;
      }
      Offer(p, i, d);
      return Done;
    }

    /** The second entry of a new directory fits into the block of the first. */
    method LinkDotDot(id: nat, parent: nat)
      requires Sound() && id in store.dirs && 0 < parent < INODE_COUNT && id != 0
      requires store.dirs[id] == [Dentry(Padded(DOT), id)] && NameMap(store.dirs[id]) == map[DOT := id]
      modifies cache, store`dirs, store.fs, store.fs.cache, store.fs.cache.slots
      ensures Sound() && cache.enabled == old(cache.enabled) && store.types == old(store.types)
      ensures store.fs.inodes.Keys == old(store.fs.inodes).Keys && id in store.dirs
      ensures store.fs.owner == old(store.fs.owner) && store.fs.usedBlock == old(store.fs.usedBlock)
      ensures store.dirs == old(store.dirs)[id := store.dirs[id]]
      ensures DirOk(store.dirs[id]) && NameMap(store.dirs[id]) == FreshNames(id, parent)
      ensures KeptBut(old(Files()), Files(), {id})
    {
      ghost var owner, dirs := store.fs.owner, store.dirs;
      NeedSecond(store.fs.View(), owner, dirs, id);
      FsModel.OwnerBound(store.fs.cache.flat, store.fs.inodes, owner);
      DotKeys();
      var r := Link(id, DOTDOT, parent);
      assert r == Done;
      FreshDir(dirs, store.dirs, id, parent);
      FsModel.GrewSize(owner, store.fs.owner, id);
    }

    /** Puts "." and ".." into a new directory: one block is all it takes. */
    method Fill(id: nat, parent: nat) returns (ok: bool)
      requires Sound() && id in store.dirs && store.dirs[id] == [] && 0 < parent < INODE_COUNT
      requires FsModel.Missing(store.fs.owner, id, FsModel.PathTo(0)) == 1
      modifies cache, store`dirs, store.fs, store.fs.cache, store.fs.cache.slots
      ensures Sound() && cache.enabled == old(cache.enabled) && store.types == old(store.types)
      ensures store.fs.inodes.Keys == old(store.fs.inodes).Keys && id in store.dirs
      ensures FsModel.Grew(old(store.fs.owner), store.fs.owner, id)
      ensures ok <==> old(Room(1))
      ensures store.dirs == old(store.dirs)[id := store.dirs[id]]
      ensures ok ==> store.fs.usedBlock == old(store.fs.usedBlock) + 1
      ensures ok ==> DirOk(store.dirs[id]) && NameMap(store.dirs[id]) == FreshNames(id, parent)
      ensures KeptBut(old(Files()), Files(), {id})
    {
      ghost var owner, dirs := store.fs.owner, store.dirs;
      NeedFirst(owner, id);
      DotKeys();
      store.DirIsLive(id);
      var r := Link(id, DOT, id);
      ok := r == Done;
      if ok {
        ghost var dot := store.dirs[id];
        FreshDot(dirs, store.dirs, id);
        LinkDotDot(id, parent);
        SetTwice(dirs, id, dot, store.dirs[id]);
      } else {
        SetTwice(dirs, id, [], []);
      }
    }

    /** A new inode, with nothing about it in the cache yet; the kernel halts when all numbers are used up. */
    method Take(kind: nat) returns (ok: bool, id: nat)
      requires Sound() && (kind == FS_TYPE_DIR || kind == FS_TYPE_FILE)
      modifies store, store.fs`inodes
      ensures Sound() && store.fs.owner == old(store.fs.owner) && store.fs.usedBlock == old(store.fs.usedBlock)
      ensures id == FreeNumber(old(store.types), 1) && (ok <==> id < INODE_COUNT)
      ensures !ok ==> store.dirs == old(store.dirs) && store.types == old(store.types) && store.links == old(store.links)
      ensures !ok ==> store.fs.inodes == old(store.fs.inodes)
      ensures Files() == if ok then old(Files())[id := FsModel.EmptyFile()] else old(Files())
      ensures ok ==>
        && store.fs.inodes.Keys == old(store.fs.inodes).Keys + {id}
        && id !in old(store.fs.inodes) && id !in old(store.dirs)
        && store.types == old(store.types)[id := kind] && store.links == old(store.links)[id := 0]
        && store.dirs == (if kind == FS_TYPE_DIR then old(store.dirs)[id := []] else old(store.dirs))
        && FsModel.Missing(store.fs.owner, id, FsModel.PathTo(0)) == 1
    {
      ghost var dirs, types := store.dirs, store.types;
      ok, id := store.InodeAlloc(kind);
      if ok { AllocCoherent(dirs, types, cache.table, id, kind, store.dirs); }
    }

    method SetLinks(id: nat, n: nat)
      requires Sound() && id < INODE_COUNT
      modifies store`links
      ensures Sound() && store.links == old(store.links)[id := n]
    {
      store.links := store.links[id := n];
    }

    /** Makes inode 1 a directory with both dots itself. */
    method RootEntries()
      requires Sound() && store.dirs == map[] && store.fs.usedBlock == 0 && store.fs.inodes == map[]
      requires forall n :: 0 <= n < INODE_COUNT ==> store.types[n] == FS_TYPE_NONE
      modifies cache, store, store.fs, store.fs.cache, store.fs.cache.slots
      ensures Sound() && cache.enabled == old(cache.enabled)
      ensures store.dirs.Keys == store.fs.inodes.Keys == {ROOT_INODE} && DirOk(store.dirs[ROOT_INODE])
      ensures NameMap(store.dirs[ROOT_INODE]) == FreshNames(ROOT_INODE, ROOT_INODE)
      ensures store.types[ROOT_INODE] == FS_TYPE_DIR && store.links[ROOT_INODE] == 1
    {
      var _, id := Take(FS_TYPE_DIR);
      assert id == ROOT_INODE;
      SetLinks(id, 1);
      var _ := Fill(id, id);
    }

    /** Makes the root directory of an empty file system. */
    method MakeRoot()
      requires Sound() && store.dirs == map[] && store.fs.usedBlock == 0 && store.fs.inodes == map[]
      requires forall n :: 0 <= n < INODE_COUNT ==> store.types[n] == FS_TYPE_NONE
      modifies cache, store, store.fs, store.fs.cache, store.fs.cache.slots
      ensures Valid() && cache.enabled == old(cache.enabled)
      ensures Clean(Now()) && Now().names == map[ROOT_INODE := FreshNames(ROOT_INODE, ROOT_INODE)]
    {
      RootEntries();
      SetLinks(ROOT_INODE, store.links[ROOT_INODE] + 1);
      RootDirs(store.dirs);
      FreshTree(Now());
    }

    /** Wipes the slot a lookup found and forgets the name. The slot exists, so the write cannot fail. */
    method Erase(p: nat, name: seq<Byte>, offset: nat)
      requires Sound() && AllFormed(store.dirs) && p in store.dirs && Ordinary(Key(name))
      requires SlotOf(store.dirs[p], Key(name)) < |store.dirs[p]|
      requires offset == DENTRY_SIZE * SlotOf(store.dirs[p], Key(name))
      modifies cache, store`dirs, store.fs, store.fs.cache, store.fs.cache.slots
      ensures Sound() && AllFormed(store.dirs) && cache.enabled == old(cache.enabled) && store.types == old(store.types)
      ensures store.dirs == ErasedDirs(old(store.dirs), p, Key(name)) && store.fs.inodes.Keys == old(store.fs.inodes).Keys
      ensures NamesOf(store.dirs) == WithoutName(NamesOf(old(store.dirs)), p, Key(name))
      ensures KeptBut(old(Files()), Files(), {p})
    {
      ghost var table := cache.table;
      ErasedDirsOk(store.dirs, p, Key(name));
      var ok := store.WriteSlot(p, offset / DENTRY_SIZE, UNUSED);
      assert ok;
      cache.Remove(p, name);
      FormedUnique(store.dirs);
      assert UniqueAt(old(store.dirs), p);
      ErasedCoherent(old(store.dirs), store.types, table, cache.table, p, Key(name));
    }

    method IsDots(name: seq<Byte>) returns (b: bool)
      ensures b <==> !Ordinary(Key(name))
    {
      DotKeys();
      var r := Compare(name, DOT);
      var r' := Compare(name, DOTDOT);
      b := r == 0 || r' == 0;
    }

    /** A second name for something that is no directory. */
    method Ln(p: nat, name: seq<Byte>, ino: nat) returns (r: Status)
      requires Valid() && Allowed(Now(), OpLn(p, name, ino))
      modifies cache, store`dirs, store.fs, store.fs.cache, store.fs.cache.slots
      ensures Valid() && cache.enabled == old(cache.enabled)
      ensures DirStep(old(Now()), OpLn(p, name, ino), old(Room(NeedIn(p))), DirOut(r, false, 0), Now())
      ensures ContentsKept(old(Files()), Files(), store.dirs.Keys)
    {
      if ino !in store.fs.inodes {
        return Dangling;
      }
      if store.types[ino] == FS_TYPE_DIR {
        return TypeMismatch;
      }
      ghost var t := Now();
      if Key(name) !in NameMap(store.dirs[p]) { LinkedDirsOk(store.dirs, p, name, ino); }
      r := Link(p, name, ino);
      StepKeepsTree(t, OpLn(p, name, ino), old(Room(NeedIn(p))), DirOut(r, false, 0), Now());
    }

    /** Deletes an inode; what the cache knows about it stays. */
    method Undo(id: nat)
      requires Sound() && id in store.fs.inodes
      modifies store`dirs, store.fs, store.fs.cache, store.fs.cache.slots
      ensures Sound() && store.types == old(store.types) && store.dirs == old(store.dirs) - {id}
      ensures store.fs.inodes.Keys == old(store.fs.inodes).Keys - {id} && Files() == old(Files()) - {id}
    {
      assert TypedAt(store.fs.View().Keys, store.types, store.dirs.Keys, id);
      DropCoherent(store.dirs, store.types, cache.table, id);
      store.InodeDelete(id);
    }

    /** Takes one link off an inode that is no directory, and deletes it if that was the last and nobody has it open. */
    method DropLink(id: nat, open: bool)
      requires Sound() && id in store.fs.inodes && id !in store.dirs && id < INODE_COUNT
      modifies store`links, store`dirs, store.fs, store.fs.cache, store.fs.cache.slots
      ensures Sound() && store.types == old(store.types) && store.dirs == old(store.dirs)
      ensures store.links == old(store.links)[id := Less(old(store.links)[id])]
      ensures store.fs.inodes.Keys == old(store.fs.inodes).Keys - (if store.links[id] == 0 && !open then {id} else {})
      ensures KeptBut(old(Files()), Files(), {})
    {
      SetLinks(id, Less(store.links[id]));
      if store.links[id] == 0 && !open {
        Undo(id);
        assert store.dirs == old(store.dirs);
      }
    }

    /** Wipes the name of file ino and takes one link off it. */
    method EraseFile(p: nat, name: seq<Byte>, ino: nat, offset: nat, open: bool)
      requires Sound() && AllFormed(store.dirs) && p in store.dirs && Ordinary(Key(name))
      requires SlotOf(store.dirs[p], Key(name)) < |store.dirs[p]|
      requires offset == DENTRY_SIZE * SlotOf(store.dirs[p], Key(name))
      requires ino in store.fs.inodes && ino !in store.dirs && ino < INODE_COUNT
      requires Key(name) in NameMap(store.dirs[p]) && ino == NameMap(store.dirs[p])[Key(name)]
      modifies cache, store`dirs, store`links, store.fs, store.fs.cache, store.fs.cache.slots
      ensures Sound() && AllFormed(store.dirs) && cache.enabled == old(cache.enabled)
      ensures Now() == UnlinkedTree(old(Now()), p, Key(name), open)
      ensures ContentsKept(old(Files()), Files(), store.dirs.Keys)
    {
      Erase(p, name, offset);
      DropLink(ino, open);
      KeptMeans(old(Files()), Files(), p, store.dirs.Keys);
    }

    /** Removes a name that is not a directory's, and the file with it if that was its last counted link. */
    method Unlink(p: nat, name: seq<Byte>, open: bool) returns (r: Status)
      requires Valid() && p in store.dirs
      modifies cache, store`dirs, store`links, store.fs, store.fs.cache, store.fs.cache.slots
      ensures Valid() && cache.enabled == old(cache.enabled)
      ensures DirStep(old(Now()), OpUnlink(p, name, open), true, DirOut(r, false, 0), Now())
      ensures ContentsKept(old(Files()), Files(), store.dirs.Keys)
    {
      ghost var t := Now();
      var special := IsDots(name);
      if special {
        return NoPermission;
      }
      var found, ino, offset := Lookup(p, name);
      if !found {
        return NotExists;
      }
      assert EntryAt(t, p, Key(name)) && DirAt(t, ino);
      if ino !in store.fs.inodes {
        return Dangling;
      }
      if store.types[ino] == FS_TYPE_DIR {
        return TypeMismatch;
      }
      EraseFile(p, name, ino, offset, open);
      StepKeepsTree(t, OpUnlink(p, name, open), true, DirOut(Done, false, 0), Now());
      return Done;
    }

    method UnusedFrom(p: nat, start: nat) returns (b: bool)
      requires Sound() && p in store.dirs && start <= |store.dirs[p]|
      modifies store.fs, store.fs.cache, store.fs.cache.slots
      ensures Sound() && Unmoved()
      ensures b <==> forall j :: start <= j < |store.dirs[p]| ==> store.dirs[p][j].ino == 0
    {
      var n := store.Size(p);
      var i := start;
      while i < n
        invariant start <= i <= n && Sound() && Unmoved()
        invariant forall j :: start <= j < i ==> store.dirs[p][j].ino == 0
      {
        var d := store.ReadSlot(p, i);
        if d.ino != 0 {
          return false;
        }
        i := i + 1;
      }
      return true;
    }

    /** Whether a directory holds only "." and "..". */
    method IsEmpty(p: nat) returns (b: bool)
      requires Sound() && AllFormed(store.dirs) && p in store.dirs
      modifies store.fs, store.fs.cache, store.fs.cache.slots
      ensures Sound() && Unmoved()
      ensures b <==> NameMap(store.dirs[p]).Keys == {DOT, DOTDOT}
    {
      assert FormedAt(store.dirs, p);
      b := UnusedFrom(p, 2);
      EmptyIff(store.dirs[p]);
    }

    /** A directory whose last link is gone disappears, and so does all the cache knows about it. */
    method Discard(id: nat)
      requires Sound() && AllFormed(store.dirs) && id in store.dirs
      modifies cache, store`dirs, store.fs, store.fs.cache, store.fs.cache.slots
      ensures Sound() && AllFormed(store.dirs) && cache.enabled == old(cache.enabled) && store.types == old(store.types)
      ensures store.dirs == old(store.dirs) - {id} && NamesOf(store.dirs) == NamesOf(old(store.dirs)) - {id}
      ensures store.fs.inodes.Keys == old(store.fs.inodes).Keys - {id} && KeptBut(old(Files()), Files(), {})
      ensures forall key :: cache.Knows(id, key) == None
    {
      ghost var table := cache.table;
      store.DirIsLive(id);
      cache.Invalidate(id);
      assert forall q, key :: Known(cache.table, q, key) == cache.Knows(q, key);
      LessCoherent(store.dirs, store.types, table, cache.table);
      DropCoherent(store.dirs, store.types, cache.table, id);
      NamesDropped(store.dirs, id);
      Undo(id);
    }

    /** Wipes the name of directory ino, which counts one link, takes the links off, and deletes it. */
    method RemoveEmpty(p: nat, name: seq<Byte>, ino: nat, offset: nat)
      requires Sound() && AllFormed(store.dirs) && p in store.dirs && ino in store.dirs && ino != p && Ordinary(Key(name))
      requires SlotOf(store.dirs[p], Key(name)) < |store.dirs[p]|
      requires offset == DENTRY_SIZE * SlotOf(store.dirs[p], Key(name))
      requires p < INODE_COUNT && ino < INODE_COUNT && store.links[ino] == 1
      modifies cache, store`dirs, store`links, store.fs, store.fs.cache, store.fs.cache.slots
      ensures Sound() && AllFormed(store.dirs) && cache.enabled == old(cache.enabled) && store.types == old(store.types)
      ensures NamesOf(store.dirs) == WithoutName(NamesOf(old(store.dirs)), p, Key(name)) - {ino}
      ensures store.fs.inodes.Keys == old(store.fs.inodes).Keys - {ino}
      ensures store.links == old(store.links)[p := Less(old(store.links)[p])][ino := 0]
      ensures ContentsKept(old(Files()), Files(), store.dirs.Keys)
    {
      Erase(p, name, offset);
      SetLinks(p, Less(store.links[p]));
      SetLinks(ino, Less(store.links[ino]));
      Discard(ino);
      KeptMeans(old(Files()), Files(), p, store.dirs.Keys);
    }

    /** Removes an empty directory and its name. */
    method Rmdir(p: nat, name: seq<Byte>) returns (r: Status)
      requires Valid() && p in store.dirs
      modifies cache, store`dirs, store`links, store.fs, store.fs.cache, store.fs.cache.slots
      ensures Valid() && cache.enabled == old(cache.enabled)
      ensures DirStep(old(Now()), OpRmdir(p, name), true, DirOut(r, false, 0), Now())
      ensures ContentsKept(old(Files()), Files(), store.dirs.Keys)
    {
      ghost var t := Now();
      var special := IsDots(name);
      if special {
        return NoPermission;
      }
      var found, ino, offset := Lookup(p, name);
      if !found {
        return NotExists;
      }
      assert EntryAt(t, p, Key(name)) && DirAt(t, ino) && DirAt(t, p);
      if ino !in store.fs.inodes {
        return Dangling;
      }
      if store.types[ino] != FS_TYPE_DIR {
        return TypeMismatch;
      }
      var empty := IsEmpty(ino);
      if !empty {
        return NotEmpty;
      }
      NotInItself(t, p, Key(name));
      EmptyHasOneLink(t, p, Key(name));
      RemoveEmpty(p, name, ino, offset);
      StepKeepsTree(t, OpRmdir(p, name), true, DirOut(Done, false, 0), Now());
      return Done;
    }

    /** Names a new inode in its parent, after filling it if it is a directory; base is all other directories. */
    method Attach(id: nat, p: nat, name: seq<Byte>, kind: nat, ghost base: map<nat, Slots>) returns (ok: bool)
      requires Sound() && p in base && id !in base && Key(name) !in NameMap(base[p])
      requires 0 < p < INODE_COUNT && 0 < id < INODE_COUNT
      requires store.dirs == if kind == FS_TYPE_DIR then base[id := []] else base
      requires FsModel.Missing(store.fs.owner, id, FsModel.PathTo(0)) == 1
      modifies cache, store`dirs, store.fs, store.fs.cache, store.fs.cache.slots
      ensures Sound() && cache.enabled == old(cache.enabled) && store.types == old(store.types)
      ensures store.fs.inodes.Keys == old(store.fs.inodes).Keys
      ensures ok <==> old(Room(Need(store.fs.owner, p, base[p]) + if kind == FS_TYPE_DIR then 1 else 0))
      ensures id in store.dirs <==> kind == FS_TYPE_DIR
      ensures store.dirs - {id} == if ok then LinkedDirs(base, p, name, id) else base
      ensures ok && kind == FS_TYPE_DIR ==> DirOk(store.dirs[id]) && NameMap(store.dirs[id]) == FreshNames(id, p)
      ensures KeptBut(old(Files()), Files(), if kind == FS_TYPE_DIR then {id, p} else {p})
    {
      ok := true;
      if kind == FS_TYPE_DIR {
        ok := Fill(id, p);
        FsModel.GrewMissing(old(store.fs.owner), store.fs.owner, id, p, FsModel.PathTo(BlockOf(|base[p]|)));
        SetTwice(base, id, [], store.dirs[id]);
        LinkedApart(base, id, store.dirs[id], p, name, id);
      } else {
        LinkedApart(base, id, [], p, name, id);
      }
      if ok {
        var r := Link(p, name, id);
        ok := r == Done;
      }
    }

    /** Attaches a new inode, or deletes it again. */
    method Place(id: nat, p: nat, name: seq<Byte>, kind: nat, ghost base: map<nat, Slots>) returns (ok: bool)
      requires Sound() && p in base && id !in base && Key(name) !in NameMap(base[p]) && id in store.fs.inodes
      requires 0 < p < INODE_COUNT && 0 < id < INODE_COUNT
      requires store.dirs == if kind == FS_TYPE_DIR then base[id := []] else base
      requires FsModel.Missing(store.fs.owner, id, FsModel.PathTo(0)) == 1
      modifies cache, store`dirs, store.fs, store.fs.cache, store.fs.cache.slots
      ensures Sound() && cache.enabled == old(cache.enabled) && store.types == old(store.types)
      ensures ok <==> old(Room(Need(store.fs.owner, p, base[p]) + if kind == FS_TYPE_DIR then 1 else 0))
      ensures p in store.dirs
      ensures !ok ==> store.dirs == base && store.fs.inodes.Keys == old(store.fs.inodes).Keys - {id}
      ensures ok ==> store.fs.inodes.Keys == old(store.fs.inodes).Keys
      ensures ok ==> store.dirs - {id} == LinkedDirs(base, p, name, id) && (id in store.dirs <==> kind == FS_TYPE_DIR)
      ensures ok && kind == FS_TYPE_DIR ==> DirOk(store.dirs[id]) && NameMap(store.dirs[id]) == FreshNames(id, p)
      ensures KeptBut(old(Files()), Files(), if kind == FS_TYPE_DIR then {id, p} else {p})
    {
      ok := Attach(id, p, name, kind, base);
      assert p in store.dirs - {id};
      if !ok {
        Undo(id);
      }
    }

    /** One link for the new name, and one more for the parent of a directory. */
    method CountLinks(id: nat, p: nat, kind: nat)
      requires Sound() && id < INODE_COUNT && p < INODE_COUNT && id != p
      modifies store`links
      ensures Sound()
      ensures store.links == CountedIn(old(store.links), p, kind, id)
    {
      SetLinks(id, 1);
      if kind == FS_TYPE_DIR {
        SetLinks(p, store.links[p] + 1);
      }
    }

    /** Takes a new inode, places it under a name that does not exist, and counts its links. What failed half way is
        undone, except that the inode number stays used and the cache may keep entries under it, where no directory
        will look for them. */
    method Settle(p: nat, name: seq<Byte>, kind: nat) returns (r: Status, id: nat)
      requires Sound() && p in store.dirs && 0 < p < INODE_COUNT && Key(name) !in NameMap(store.dirs[p])
      requires (kind == FS_TYPE_DIR || kind == FS_TYPE_FILE) && store.types[p] != FS_TYPE_NONE
      modifies cache, store, store.fs, store.fs.cache, store.fs.cache.slots
      ensures Sound() && cache.enabled == old(cache.enabled) && id == FreeNumber(old(store.types), 1)
      ensures r == if id == INODE_COUNT then Halted
                   else if old(Room(NeedIn(p) + if kind == FS_TYPE_DIR then 1 else 0)) then Done
                   else Failed
      ensures Settled(old(Now()), old(store.dirs), Now(), store.dirs, p, name, kind, id, r)
      ensures ContentsKept(old(Files()), Files(), store.dirs.Keys)
    {
      ghost var dirs, keys := store.dirs, store.fs.inodes.Keys;
      var ok;
      ok, id := Take(kind);
      if !ok {
        return Halted, id;
      }
      ghost var files := Files();
      ok := Place(id, p, name, kind, dirs);
      assert keys + {id} - {id} == keys;
      NewIsEmpty(old(Files()), files, Files(), id, p, kind == FS_TYPE_DIR, store.dirs.Keys);
      if !ok {
        return Failed, id;
      }
      CountLinks(id, p, kind);
      r := Done;
    }

    /** Creates a file or a directory under a name that does not exist. */
    method CreateNew(p: nat, name: seq<Byte>, kind: nat) returns (r: Status)
      requires Valid() && Allowed(Now(), OpCreate(p, name, kind)) && Key(name) !in NameMap(store.dirs[p])
      modifies cache, store, store.fs, store.fs.cache, store.fs.cache.slots
      ensures Valid() && cache.enabled == old(cache.enabled)
      ensures DirStep(old(Now()), OpCreate(p, name, kind), old(Room(NeedIn(p) + if kind == FS_TYPE_DIR then 1 else 0)),
                      DirOut(r, false, 0), Now())
      ensures ContentsKept(old(Files()), Files(), store.dirs.Keys)
    {
      ghost var t, dirs, room := Now(), store.dirs, Room(NeedIn(p) + if kind == FS_TYPE_DIR then 1 else 0);
      assert DirAt(t, p);
      var id;
      r, id := Settle(p, name, kind);
      CreateMeans(t, dirs, Now(), store.dirs, p, name, kind, id, r, room);
    }

    /** Creates a file or a directory, or finds the one that already has the name. If that is p itself, whose lock
        the caller holds, it waits for itself for ever. */
    method Create(p: nat, name: seq<Byte>, kind: nat) returns (r: Status)
      requires Valid() && Allowed(Now(), OpCreate(p, name, kind))
      modifies cache, store, store.fs, store.fs.cache, store.fs.cache.slots
      ensures Valid() && cache.enabled == old(cache.enabled)
      ensures DirStep(old(Now()), OpCreate(p, name, kind), old(Room(NeedIn(p) + if kind == FS_TYPE_DIR then 1 else 0)),
                      DirOut(r, false, 0), Now())
      ensures ContentsKept(old(Files()), Files(), store.dirs.Keys)
    {
      var found, ino, _ := Lookup(p, name);
      if found {
        assert EntryAt(Now(), p, Key(name));
        if ino == p {
          return SelfLocked;
        }
        if ino !in store.fs.inodes {
          return Dangling;
        }
        return if store.types[ino] == kind then Exists else TypeMismatch;
      }
      r := CreateNew(p, name, kind);
    }

    /** Switching the cache on or off at any time changes no directory. */
    method Toggle(on: bool)
      requires Valid()
      modifies cache
      ensures Valid() && cache.enabled == on
      ensures !on ==> forall p, key :: cache.Knows(p, key) == None
    {
      ghost var table := cache.table;
      cache.SetEnabled(on);
      forall q, key ensures Known(cache.table, q, key) == None || Known(cache.table, q, key) == Known(table, q, key) {
        assert cache.Knows(q, key) == Known(table, q, key) || cache.Knows(q, key) == None;
      }
      LessCoherent(store.dirs, store.types, table, cache.table);
    }

    /** The blocks an operation takes, if it creates a name. */
    ghost function NeedOf(op: DirOp): nat
      reads this, store, store.fs
    {
      match op
      case OpLn(p, _, _) => if p in store.dirs then NeedIn(p) else 0
      case OpCreate(p, _, kind) => if p in store.dirs then NeedIn(p) + (if kind == FS_TYPE_DIR then 1 else 0) else 0
      case _ => 0
    }

    method IsDir(p: nat) returns (b: bool)
      requires Sound()
      ensures b <==> p in store.dirs
    {
      assert TypedAt(store.fs.View().Keys, store.types, store.dirs.Keys, p);
      b := p in store.fs.inodes && store.types[p] == FS_TYPE_DIR;
    }

    /** Whether the callers' guarantee holds. */
    method Admit(op: DirOp) returns (b: bool)
      requires Sound()
      ensures b <==> Allowed(Now(), op)
    {
      match op {
        case OpLookup(p, _) => b := IsDir(p);
        case OpLn(p, _, ino) =>
          b := IsDir(p);
          b := b && 0 < ino < |store.types| && store.types[ino] != FS_TYPE_NONE;
        case OpUnlink(p, _, _) => b := IsDir(p);
        case OpRmdir(p, _) => b := IsDir(p);
        case OpCreate(p, _, kind) =>
          b := IsDir(p);
          b := b && (kind == FS_TYPE_DIR || kind == FS_TYPE_FILE);
        case OpWrite(_, offset, src) => b := offset < FsModel.UINT32 && |src| < FsModel.UINT32;
        case OpReap(_) => b := true;
        case OpToggle(_) => b := true;
      }
    }

    /** Writes to a file, all of it unless the disk is full; names, directories and other files stay as they are. What
        is not a file is not written. */
    method WriteFile(id: nat, offset: nat, src: seq<Byte>) returns (n: nat)
      requires Sound() && offset < FsModel.UINT32 && |src| < FsModel.UINT32
      modifies store.fs, store.fs.cache, store.fs.cache.slots
      ensures Sound() && Now() == old(Now())
      ensures if id in old(Files()) && id !in store.dirs
              then
                && Wrote(old(Files()), id, offset, src, n, Files())
                && (n == |src| || store.fs.usedBlock == FsModel.BLOCK_COUNT)
              else n == 0 && Files() == old(Files())
    {
      var dir := IsDir(id);
      n := 0;
      if id in store.fs.inodes && !dir {
        n := store.WriteFile(id, offset, src);
      }
    }

    /** The last process that had a file without links open closes it: the file is deleted. */
    method Reap(id: nat)
      requires Valid()
      modifies store`dirs, store.fs, store.fs.cache, store.fs.cache.slots
      ensures Valid() && DirStep(old(Now()), OpReap(id), true, DirOut(Done, false, 0), Now())
      ensures ContentsKept(old(Files()), Files(), store.dirs.Keys)
      ensures cache.enabled == old(cache.enabled)
    {
      ghost var t := Now();
      var dir := IsDir(id);
      assert TypedAt(store.fs.View().Keys, store.types, store.dirs.Keys, id);
      if id in store.fs.inodes && !dir && store.links[id] == 0 {
        Undo(id);
        assert store.dirs == old(store.dirs);
        StepKeepsTree(t, OpReap(id), true, DirOut(Done, false, 0), Now());
      }
    }

    /** Carries out one operation that is allowed in the present state. */
    method Apply(op: DirOp) returns (out: DirOut)
      requires Valid() && Allowed(Now(), op)
      modifies cache, store, store.fs, store.fs.cache, store.fs.cache.slots
      ensures Valid() && DirStep(old(Now()), op, old(Room(NeedOf(op))), out, Now())
      ensures FilesStep(old(Now()), old(Files()), op, store.fs.usedBlock, Now(), Files())
    {
      var r := Done;
      match op {
        case OpLookup(p, name) =>
          var found, ino, _ := Lookup(p, name);
          return DirOut(Done, found, if found then ino else 0);
        case OpLn(p, name, ino) => r := Ln(p, name, ino);
        case OpUnlink(p, name, open) => r := Unlink(p, name, open);
        case OpRmdir(p, name) => r := Rmdir(p, name);
        case OpCreate(p, name, kind) => r := Create(p, name, kind);
        case OpWrite(id, offset, src) => var _ := WriteFile(id, offset, src);
        case OpReap(id) => Reap(id);
        case OpToggle(on) => Toggle(on);
      }
      out := DirOut(r, false, 0);
    }

    lemma NeedOfBound(op: DirOp)
      ensures NeedOf(op) <= 4
    {
      if (op.OpLn? || op.OpCreate?) && op.p in store.dirs { NeedBound(store.fs.owner, op.p, store.dirs[op.p]); }
    }

    /** Carries out one operation, or skips it if it is not allowed. */
    method Step(op: DirOp) returns (out: DirOut)
      requires Valid()
      modifies cache, store, store.fs, store.fs.cache, store.fs.cache.slots
      ensures Valid() && RunStep(old(Now()), op, old(Room(NeedOf(op))), out, Now())
      ensures FilesStep(old(Now()), old(Files()), op, store.fs.usedBlock, Now(), Files())
      ensures !Allowed(old(Now()), op) ==> out.status == Failed && store.fs.usedBlock == old(store.fs.usedBlock)
    {
      var admitted := Admit(op);
      if !admitted {
        return DirOut(Failed, false, 0);
      }
      out := Apply(op);
    }

    /** Files and directories are told apart by their types. */
    lemma FilesAreOk()
      requires Sound()
      ensures FilesOk(Now(), Files())
    {
      assert Files().Keys == store.fs.View().Keys == store.fs.inodes.Keys;
      assert Now().names.Keys == store.dirs.Keys;
    }

    /** One more operation of a run. */
    method StepOn(ops: seq<DirOp>, outs: seq<DirOut>, ghost trees: seq<Tree>, ghost room: seq<bool>, ghost used: seq<int>,
                  ghost files: seq<map<nat, FsModel.File>>, ghost t: Tree, ghost u: int, ghost f: map<nat, FsModel.File>)
      returns (out: DirOut, ghost trees': seq<Tree>, ghost room': seq<bool>, ghost used': seq<int>,
               ghost files': seq<map<nat, FsModel.File>>)
      requires Valid() && |outs| < |ops| && RunOk(ops, outs, trees, room, used) && FilesRun(ops, trees, used, files)
      requires Spans(trees, used, files, |outs|, t, u, f, Now(), store.fs.usedBlock, Files())
      modifies cache, store, store.fs, store.fs.cache, store.fs.cache.slots
      ensures Valid() && RunOk(ops, outs + [out], trees', room', used') && FilesRun(ops, trees', used', files')
      ensures Spans(trees', used', files', |outs| + 1, t, u, f, Now(), store.fs.usedBlock, Files())
    {
      var op := ops[|outs|];
      NeedOfBound(op);
      ghost var fits := Room(NeedOf(op));
      out := Step(op);
      RunOkMore(ops, outs, trees, room, used, out, Now(), fits, store.fs.usedBlock);
      FilesAreOk();
      FilesRunMore(ops, trees, used, files, Now(), store.fs.usedBlock, Files());
      trees', room', used', files' := trees + [Now()], room + [fits], used + [store.fs.usedBlock], files + [Files()];
    }

    /** Any run, with the cache switched on and off at will and files written and deleted in between, is one of the
        names alone (RunOk), and files change by the writes alone (FilesRun). It ends early only when a creation waits
        for itself or finds all inode numbers used up, or when a name leads to a deleted inode. */
    method Run(ops: seq<DirOp>)
      returns (outs: seq<DirOut>, ghost trees: seq<Tree>, ghost room: seq<bool>, ghost used: seq<int>,
               ghost files: seq<map<nat, FsModel.File>>)
      requires Valid()
      modifies cache, store, store.fs, store.fs.cache, store.fs.cache.slots
      ensures Valid() && RunOk(ops, outs, trees, room, used) && FilesRun(ops, trees, used, files)
      ensures |outs| < |ops| ==> outs != [] && Final(outs[|outs| - 1].status)
      ensures forall i :: 0 <= i < |outs| - 1 ==> !Final(outs[i].status)
      ensures Spans(trees, used, files, |outs|, old(Now()), old(store.fs.usedBlock), old(Files()),
                    Now(), store.fs.usedBlock, Files())
    {
      outs, trees, room, used, files := [], [Now()], [], [store.fs.usedBlock], [Files()];
      FilesAreOk();
      while |outs| < |ops|
        invariant Valid() && RunOk(ops, outs, trees, room, used) && FilesRun(ops, trees, used, files)
        invariant Spans(trees, used, files, |outs|, old(Now()), old(store.fs.usedBlock), old(Files()),
                        Now(), store.fs.usedBlock, Files())
        invariant forall i :: 0 <= i < |outs| ==> !Final(outs[i].status)
        decreases |ops| - |outs|
      {
        var out;
        out, trees, room, used, files := StepOn(ops, outs, trees, room, used, files,
                                                old(Now()), old(store.fs.usedBlock), old(Files()));
        outs := outs + [out];
        if Final(out.status) {
          return;
        }
      }
    }
  }
}
