/** The tree the directories form, the files their names lead to, and what the operations do to both. */
module DirTree {
  import opened Common
  import opened Names
  import opened DirStore
  import opened DirModel
  import FsModel

  /** The directories as name maps, the type every inode number has on disk, the inodes that exist, and their link
      counts. */
  datatype Tree = Tree(names: DirView, types: seq<nat>, live: set<nat>, links: seq<nat>)

  predicate Ordinary(key: seq<Byte>) { key != DOT && key != DOTDOT }

  ghost predicate HasUp(v: DirView, c: nat) { c in v && DOTDOT in v[c] && v[c][DOTDOT] in v }

  /** If p is a directory: it has that type, its "." is itself, its ".." is a directory, it is named there unless it
      is the root, and steps of ".." lead to the root. */
  ghost predicate DirAt(t: Tree, p: nat) {
    p in t.names ==>
      && 0 < p < |t.types| && t.types[p] == FS_TYPE_DIR
      && DOT in t.names[p] && t.names[p][DOT] == p
      && HasUp(t.names, p) && HomeOk(t, p) && Rooted(t.names, p)
  }

  /** If p holds a name, it leads to a number in use; if that is a directory's, the directory exists, is not the root,
      has p as its "..", and goes by no other name. */
  ghost predicate EntryAt(t: Tree, p: nat, key: seq<Byte>) {
    p in t.names && key in t.names[p] ==>
      var c := t.names[p][key];
      && 0 < c < |t.types| && t.types[c] != FS_TYPE_NONE && (t.types[c] == FS_TYPE_DIR ==> c in t.names)
      && (Ordinary(key) && c in t.names ==>
          c != ROOT_INODE && HasUp(t.names, c) && t.names[c][DOTDOT] == p && OnlyName(t.names[p], key))
  }

  /** No other ordinary name leads where key does. */
  ghost predicate OnlyName(m: map<seq<Byte>, nat>, key: seq<Byte>)
    requires key in m
  {
    forall k :: k in m && Ordinary(k) && m[k] == m[key] ==> k == key
  }

  /** Every directory but the root is named in its "..". */
  ghost predicate HomeOk(t: Tree, c: nat)
    requires HasUp(t.names, c)
  {
    var p := t.names[c][DOTDOT];
    if c == ROOT_INODE then p == c else NamedIn(t.names[p], c)
  }

  ghost predicate NamedIn(m: map<seq<Byte>, nat>, c: nat) { exists key :: key in m && Ordinary(key) && m[key] == c }

  /** n steps of "..". */
  function Climb(v: DirView, c: nat, n: nat): nat
    decreases n
  {
    if n == 0 || c !in v || DOTDOT !in v[c] then c else Climb(v, v[c][DOTDOT], n - 1)
  }

  ghost predicate Rooted(v: DirView, c: nat) { exists n :: Climb(v, c, n) == ROOT_INODE }

  /** The directories form one tree below the root, and every name leads to a number in use. */
  ghost predicate Shape(t: Tree) {
    && |t.types| == INODE_COUNT && ROOT_INODE in t.names
    && (forall p :: DirAt(t, p)) && (forall p, key :: EntryAt(t, p, key))
  }

  lemma {:induction false} ClimbLoop(v: DirView, c: nat, n: nat)
    requires c in v && DOTDOT in v[c] && v[c][DOTDOT] == c
    ensures Climb(v, c, n) == c
  {
    if n > 0 { ClimbLoop(v, c, n - 1); }
  }

  /** No directory is named in itself. */
  lemma NotInItself(t: Tree, p: nat, key: seq<Byte>)
    requires Shape(t) && p in t.names && key in t.names[p] && Ordinary(key)
    ensures t.names[p][key] != p
  {
    assert EntryAt(t, p, key) && DirAt(t, p);
    var n :| Climb(t.names, p, n) == ROOT_INODE;
    if t.names[p][key] == p { ClimbLoop(t.names, p, n); }
  }

  /** Unless it is the one that goes, p keeps its "..", which is not the one that goes. */
  ghost predicate UpKept(v: DirView, v': DirView, gone: nat, p: nat) {
    p in v && p != gone ==> HasUp(v, p) && v[p][DOTDOT] != gone && HasUp(v', p) && v'[p][DOTDOT] == v[p][DOTDOT]
  }

  /** Climbing only looks at "..". */
  lemma {:induction false} ClimbSame(v: DirView, v': DirView, gone: nat, c: nat, n: nat)
    requires c in v && c != gone && forall p :: UpKept(v, v', gone, p)
    ensures Climb(v', c, n) == Climb(v, c, n)
    decreases n
  {
    assert UpKept(v, v', gone, c);
    if n > 0 { ClimbSame(v, v', gone, v[c][DOTDOT], n - 1); }
  }

  /** A directory that keeps its ".." and its name in it stays where it is in the tree. */
  lemma DirKept(t: Tree, t': Tree, gone: nat, c: nat)
    requires Shape(t) && c in t.names && c != gone && (forall p :: UpKept(t.names, t'.names, gone, p))
    requires HasUp(t.names, c) && HasUp(t'.names, c) && t'.names[c][DOTDOT] == t.names[c][DOTDOT]
    requires DOT in t'.names[c] && t'.names[c][DOT] == c && c < |t'.types| && t'.types[c] == FS_TYPE_DIR
    requires forall k :: k in t.names[t.names[c][DOTDOT]] && t.names[t.names[c][DOTDOT]][k] == c ==>
      k in t'.names[t.names[c][DOTDOT]] && t'.names[t.names[c][DOTDOT]][k] == c
    ensures DirAt(t', c)
  {
    assert DirAt(t, c) && UpKept(t.names, t'.names, gone, c);
    var n :| Climb(t.names, c, n) == ROOT_INODE;
    ClimbSame(t.names, t'.names, gone, c, n);
    if c != ROOT_INODE {
      var m := t.names[t.names[c][DOTDOT]];
      var k :| k in m && Ordinary(k) && m[k] == c;
      assert k in t'.names[t.names[c][DOTDOT]];
    }
  }

  /** Using up a number changes nothing else: no name leads to it. */
  lemma TreeSpent(t: Tree, id: nat, kind: nat)
    requires Shape(t) && 0 < id < INODE_COUNT && t.types[id] == FS_TYPE_NONE && kind != FS_TYPE_NONE
    ensures Shape(t.(types := t.types[id := kind])) && id !in t.names
  {
    var t' := t.(types := t.types[id := kind]);
    assert DirAt(t, id);
    forall p, key ensures EntryAt(t', p, key) { assert EntryAt(t, p, key); }
    forall p ensures DirAt(t', p) { assert DirAt(t, p); }
  }

  /** A new name for something that is no directory. */
  lemma TreeLinked(t: Tree, p: nat, key: seq<Byte>, ino: nat)
    requires Shape(t) && p in t.names && key !in t.names[p]
    requires 0 < ino < INODE_COUNT && t.types[ino] != FS_TYPE_NONE && t.types[ino] != FS_TYPE_DIR
    ensures Shape(t.(names := WithName(t.names, p, key, ino)))
  {
    var v' := WithName(t.names, p, key, ino);
    var t' := t.(names := v');
    assert DirAt(t, p) && DirAt(t, ino);
    forall q, k ensures EntryAt(t', q, k) { assert EntryAt(t, q, k); }
    forall q ensures UpKept(t.names, v', 0, q) { assert DirAt(t, q) && DirAt(t, 0); }
    forall q ensures DirAt(t', q) {
      assert DirAt(t, q);
      if q in t.names { DirKept(t, t', 0, q); }
    }
  }

  /** A new directory under a new name. */
  lemma TreeMade(t: Tree, id: nat, p: nat, key: seq<Byte>)
    requires Shape(t) && p in t.names && key !in t.names[p]
    requires 0 < id < INODE_COUNT && t.types[id] == FS_TYPE_NONE
    ensures id !in t.names
    ensures Shape(t.(
      names := WithName(t.names[id := FreshNames(id, p)], p, key, id),
      types := t.types[id := FS_TYPE_DIR]))
  {
    var v' := WithName(t.names[id := FreshNames(id, p)], p, key, id);
    var t' := t.(names := v', types := t.types[id := FS_TYPE_DIR]);
    assert DirAt(t, id) && DirAt(t, p);
    forall q, k ensures EntryAt(t', q, k) { MadeEntry(t, t', id, p, key, q, k); }
    forall q ensures UpKept(t.names, v', 0, q) { assert DirAt(t, q) && DirAt(t, 0); }
    forall q ensures DirAt(t', q) {
      assert DirAt(t, q);
      if q in t.names {
        DirKept(t, t', 0, q);
      } else if q == id {
        DirKept(t, t', 0, p);
        var n: nat :| Climb(v', p, n) == ROOT_INODE;
        assert v'[id][DOTDOT] == p && v'[p][key] == id;
        assert Climb(v', id, n + 1) == ROOT_INODE;
      }
    }
  }

  lemma MadeEntry(t: Tree, t': Tree, id: nat, p: nat, key: seq<Byte>, q: nat, k: seq<Byte>)
    requires Shape(t) && p in t.names && key !in t.names[p]
    requires 0 < id < INODE_COUNT && t.types[id] == FS_TYPE_NONE && id !in t.names
    requires t'.names == WithName(t.names[id := FreshNames(id, p)], p, key, id) && t'.types == t.types[id := FS_TYPE_DIR]
    ensures EntryAt(t', q, k)
  {
    assert EntryAt(t, q, k) && DirAt(t, p);
    if q == p && k == key {
      forall k' | k' in t.names[p] ensures t.names[p][k'] != id { assert EntryAt(t, p, k'); }
    }
  }

  /** Taking away a name that leads to no directory. */
  lemma TreeUnlinked(t: Tree, p: nat, key: seq<Byte>)
    requires Shape(t) && p in t.names && Ordinary(key) && key in t.names[p] && t.names[p][key] !in t.names
    ensures Shape(t.(names := WithoutName(t.names, p, key)))
  {
    var v' := WithoutName(t.names, p, key);
    var t' := t.(names := v');
    forall q, k ensures EntryAt(t', q, k) { assert EntryAt(t, q, k); }
    forall q ensures UpKept(t.names, v', 0, q) { assert DirAt(t, q) && DirAt(t, 0); }
    forall q ensures DirAt(t', q) {
      assert DirAt(t, q);
      if q in t.names { DirKept(t, t', 0, q); }
    }
  }

  /** The name key of p leads to an empty directory. */
  ghost predicate EmptyDirAt(t: Tree, p: nat, key: seq<Byte>) {
    && p in t.names && Ordinary(key) && key in t.names[p] && t.names[p][key] in t.names
    && t.names[t.names[p][key]].Keys == {DOT, DOTDOT}
  }

  /** Nothing but its own name and its own "." leads to an empty directory. */
  lemma OnlyWay(t: Tree, p: nat, key: seq<Byte>, q: nat, k: seq<Byte>)
    requires Shape(t) && EmptyDirAt(t, p, key)
    requires q in t.names && k in t.names[q] && (q != p || k != key) && (q != t.names[p][key] || k != DOT)
    ensures t.names[q][k] != t.names[p][key]
  {
    var c := t.names[p][key];
    assert EntryAt(t, p, key) && EntryAt(t, q, k) && DirAt(t, q) && DirAt(t, c);
    assert !NamedIn(t.names[c], q);
  }

  /** Taking away an empty directory and its name. */
  lemma TreeRemoved(t: Tree, p: nat, key: seq<Byte>)
    requires Shape(t) && EmptyDirAt(t, p, key)
    ensures Shape(t.(names := WithoutName(t.names, p, key) - {t.names[p][key]}))
  {
    var c := t.names[p][key];
    var v' := WithoutName(t.names, p, key) - {c};
    var t' := t.(names := v');
    NotInItself(t, p, key);
    assert EntryAt(t, p, key);
    forall q ensures UpKept(t.names, v', c, q) {
      assert DirAt(t, q);
      if q in t.names && q != c { OnlyWay(t, p, key, q, DOTDOT); }
    }
    forall q, k ensures EntryAt(t', q, k) {
      assert EntryAt(t, q, k);
      if q in v' && k in v'[q] { OnlyWay(t, p, key, q, k); }
    }
    forall q ensures DirAt(t', q) {
      assert DirAt(t, q);
      if q in t.names && q != c { DirKept(t, t', c, q); }
    }
  }

  // ---- link counts and files ----

  /** The directories right below d. */
  function Subdirs(v: DirView, d: nat): set<nat> {
    set c | c in v && c != ROOT_INODE && DOTDOT in v[c] && v[c][DOTDOT] == d
  }

  /** A directory's link count is one more than its subdirectories; the root counts itself once more. */
  ghost predicate LinkAt(t: Tree, d: nat) {
    d in t.names ==> d < |t.links| && t.links[d] == |Subdirs(t.names, d)| + if d == ROOT_INODE then 2 else 1
  }

  ghost predicate TreeOk(t: Tree) {
    Shape(t) && |t.links| == INODE_COUNT && t.names.Keys <= t.live && forall d :: LinkAt(t, d)
  }

  /** A name leads to an inode that exists. */
  ghost predicate LiveAt(t: Tree, p: nat, key: seq<Byte>) {
    p in t.names && key in t.names[p] ==> t.names[p][key] in t.live
  }

  /** No name leads to an inode that was deleted. */
  ghost predicate AllLive(t: Tree) { forall p, key :: LiveAt(t, p, key) }

  /** The name key in p leads to file c. */
  predicate LeadsTo(t: Tree, p: nat, key: seq<Byte>, c: nat) {
    p in t.names && key in t.names[p] && t.names[p][key] == c && c !in t.names
  }

  /** A file goes by one name at most, and exactly then counts one link; without a name it counts none. */
  ghost predicate CountedAt(t: Tree, c: nat) {
    c in t.live && c !in t.names ==>
      && c < |t.links|
      && (forall p, k, q, j :: LeadsTo(t, p, k, c) && LeadsTo(t, q, j, c) ==> p == q && k == j)
      && (t.links[c] == if Named(t, c) then 1 else 0)
  }

  ghost predicate Named(t: Tree, c: nat) { exists p, k :: LeadsTo(t, p, k, c) }

  /** Nothing was ever given a second name. */
  ghost predicate Clean(t: Tree) { AllLive(t) && forall c :: CountedAt(t, c) }

  /** The tree of a file system just made. */
  lemma FreshTree(t: Tree)
    requires t.names == map[ROOT_INODE := FreshNames(ROOT_INODE, ROOT_INODE)] && t.live == {ROOT_INODE}
    requires |t.types| == |t.links| == INODE_COUNT && t.types[ROOT_INODE] == FS_TYPE_DIR && t.links[ROOT_INODE] == 2
    ensures TreeOk(t) && Clean(t)
  {
    assert Climb(t.names, ROOT_INODE, 0) == ROOT_INODE;
    assert Subdirs(t.names, ROOT_INODE) == {};
    assert forall p, key :: LiveAt(t, p, key);
  }

  /** c is a directory in both or in neither, with the same "..". */
  ghost predicate SameUp(v: DirView, v': DirView, c: nat) {
    (c in v <==> c in v') &&
    (c in v ==> (DOTDOT in v[c] <==> DOTDOT in v'[c]) && (DOTDOT in v[c] ==> v[c][DOTDOT] == v'[c][DOTDOT]))
  }

  /** Link counts look at ".." only. */
  lemma LinksSame(t: Tree, t': Tree)
    requires (forall d :: LinkAt(t, d)) && (forall c :: SameUp(t.names, t'.names, c)) && |t'.links| == |t.links|
    requires forall c :: c in t.names && c < |t.links| ==> t'.links[c] == t.links[c]
    ensures forall d :: LinkAt(t', d)
  {
    forall d ensures LinkAt(t', d) {
      assert LinkAt(t, d) && SameUp(t.names, t'.names, d);
      assert Subdirs(t'.names, d) == Subdirs(t.names, d) by {
        forall c ensures c in Subdirs(t'.names, d) <==> c in Subdirs(t.names, d) { assert SameUp(t.names, t'.names, c); }
      }
    }
  }

  // ---- what the operations mean ----

  /** SelfLocked: the caller waits for a lock it holds, and never returns. Dangling: the kernel goes on with an inode it
      has deleted. Halted: the kernel stops. */
  datatype Status =
    Done | NotExists | Exists | NoPermission | TypeMismatch | NotEmpty | Failed | SelfLocked | Dangling | Halted

  /** Giving something a second name; room says whether the blocks for it are to be had. */
  function LnStatus(t: Tree, p: nat, key: seq<Byte>, ino: nat, room: bool): Status
    requires p in t.names && ino < |t.types|
  {
    if ino !in t.live then Dangling
    else if t.types[ino] == FS_TYPE_DIR then TypeMismatch
    else if key in t.names[p] then Exists
    else if room then Done
    else Failed
  }

  /** Removing a name that is no directory's. */
  function UnlinkStatus(t: Tree, p: nat, key: seq<Byte>): Status
    requires p in t.names
  {
    if !Ordinary(key) then NoPermission
    else if key !in t.names[p] then NotExists
    else if t.names[p][key] !in t.live then Dangling
    else if t.names[p][key] in t.names then TypeMismatch
    else Done
  }

  /** Removing a directory. */
  function RmdirStatus(t: Tree, p: nat, key: seq<Byte>): Status
    requires p in t.names
  {
    if !Ordinary(key) then NoPermission
    else if key !in t.names[p] then NotExists
    else if t.names[p][key] !in t.live then Dangling
    else if t.names[p][key] !in t.names then TypeMismatch
    else if t.names[t.names[p][key]].Keys != {DOT, DOTDOT} then NotEmpty
    else Done
  }

  /** Creating a file or a directory. A name that leads to p itself is opened while p is locked; with every inode number
      used up the kernel halts. */
  function CreateStatus(t: Tree, p: nat, key: seq<Byte>, kind: nat, room: bool): Status
    requires p in t.names && |t.types| == INODE_COUNT
  {
    if key in t.names[p] then
      var c := t.names[p][key];
      if c == p then SelfLocked
      else if c !in t.live then Dangling
      else if c < INODE_COUNT && t.types[c] == kind then Exists
      else TypeMismatch
    else if FreeNumber(t.types, 1) >= |t.types| then Halted
    else if room then Done
    else Failed
  }

  /** The tree with a new file or directory in it: one link for its name, and one more for p if it is a directory. */
  function CreatedTree(t: Tree, p: nat, key: seq<Byte>, kind: nat, id: nat): Tree
    requires p in t.names && id < |t.types| == |t.links| && p < |t.links|
  {
    if kind == FS_TYPE_DIR && id != p
    then Tree(WithName(t.names[id := FreshNames(id, p)], p, key, id), t.types[id := kind], t.live + {id},
              t.links[id := 1][p := t.links[p] + 1])
    else Tree(WithName(t.names, p, key, id), t.types[id := kind], t.live + {id}, t.links[id := 1])
  }

  lemma CountedLinks(links: seq<nat>, id: nat, p: nat)
    requires id < |links| && p < |links| && id != p
    ensures links[id := 0][id := 1] == links[id := 1] && links[id := 0][p] == links[p]
  {
  }

  lemma CreatedIs(t: Tree, p: nat, key: seq<Byte>, kind: nat, id: nat, u: Tree)
    requires p in t.names && id < |t.types| == |t.links| && p < |t.links| && id != p
    requires u.names == CreatedTree(t, p, key, kind, id).names
    requires u.types == t.types[id := kind] && u.live == t.live + {id}
    requires u.links == CountedIn(t.links[id := 0], p, kind, id)
    ensures u == CreatedTree(t, p, key, kind, id)
  {
    CountedLinks(t.links, id, p);
  }

  /** A 16-bit count with one taken off. */
  function Less(n: nat): nat { (n + 65535) % 65536 }

  /** The tree without a file's name. The file's count falls, and if that makes it zero and nobody has the file open,
      the file is deleted. */
  function UnlinkedTree(t: Tree, p: nat, key: seq<Byte>, open: bool): Tree
    requires p in t.names && key in t.names[p] && t.names[p][key] < |t.links|
  {
    var c := t.names[p][key];
    var n := Less(t.links[c]);
    Tree(WithoutName(t.names, p, key), t.types, if n == 0 && !open then t.live - {c} else t.live, t.links[c := n])
  }

  /** The tree without an empty directory and its name. */
  function RemovedTree(t: Tree, p: nat, key: seq<Byte>): Tree
    requires p in t.names && key in t.names[p] && t.names[p][key] < |t.links| && p < |t.links|
  {
    var c := t.names[p][key];
    Tree(WithoutName(t.names, p, key) - {c}, t.types, t.live - {c}, t.links[p := Less(t.links[p])][c := 0])
  }

  datatype DirOp =
    | OpLookup(p: nat, name: seq<Byte>)
    | OpLn(p: nat, name: seq<Byte>, ino: nat)
    | OpUnlink(p: nat, name: seq<Byte>, open: bool)
    | OpRmdir(p: nat, name: seq<Byte>)
    | OpCreate(p: nat, name: seq<Byte>, kind: nat)
    | OpWrite(id: nat, offset: nat, src: seq<Byte>)
    | OpReap(id: nat)
    | OpToggle(on: bool)

  datatype DirOut = DirOut(status: Status, found: bool, ino: nat)

  /** What callers guarantee: the directory exists, what gets a second name is in use, offsets and
      lengths are 32-bit. */
  predicate Allowed(t: Tree, op: DirOp) {
    match op
    case OpLookup(p, _) => p in t.names
    case OpLn(p, _, ino) => p in t.names && 0 < ino < |t.types| && t.types[ino] != FS_TYPE_NONE
    case OpUnlink(p, _, _) => p in t.names
    case OpRmdir(p, _) => p in t.names
    case OpCreate(p, _, kind) => p in t.names && (kind == FS_TYPE_DIR || kind == FS_TYPE_FILE)
    case OpWrite(_, offset, src) => offset < FsModel.UINT32 && |src| < FsModel.UINT32
    case OpReap(_) => true
    case OpToggle(_) => true
  }

  /** The meaning of an operation on names alone: neither the cache nor the slots are part of it. */
  ghost predicate DirStep(t: Tree, op: DirOp, room: bool, out: DirOut, t': Tree)
    requires Allowed(t, op) && TreeOk(t)
  {
    match op
    case OpLookup(p, name) =>
      t' == t && out.found == (Key(name) in t.names[p]) && (out.found ==> out.ino == t.names[p][Key(name)])
    case OpLn(p, name, ino) =>
      && out.status == LnStatus(t, p, Key(name), ino, room)
      && t' == if out.status == Done then t.(names := WithName(t.names, p, Key(name), ino)) else t
    case OpUnlink(p, name, open) =>
      && out.status == UnlinkStatus(t, p, Key(name))
      && t' == (if out.status == Done then (assert EntryAt(t, p, Key(name)); UnlinkedTree(t, p, Key(name), open)) else t)
    case OpRmdir(p, name) =>
      && out.status == RmdirStatus(t, p, Key(name))
      && t' == (if out.status == Done
                then (assert EntryAt(t, p, Key(name)) && DirAt(t, p); RemovedTree(t, p, Key(name))) else t)
    case OpCreate(p, name, kind) =>
      && out.status == CreateStatus(t, p, Key(name), kind, room)
      && t' == (if out.status == Done
                then (assert DirAt(t, p); CreatedTree(t, p, Key(name), kind, FreeNumber(t.types, 1)))
                else if out.status == Failed then t.(types := t.types[FreeNumber(t.types, 1) := kind],
                                                     links := t.links[FreeNumber(t.types, 1) := 0])
                else t)
    case OpReap(id) =>
      t' ==
        if id in t.live && id !in t.names && id < INODE_COUNT && t.links[id] == 0 then t.(live := t.live - {id}) else t
    case _ => t' == t
  }

  // ---- every operation keeps the tree ----

  lemma LnKeepsTree(t: Tree, p: nat, key: seq<Byte>, ino: nat)
    requires TreeOk(t) && p in t.names && key !in t.names[p]
    requires 0 < ino < INODE_COUNT && t.types[ino] != FS_TYPE_NONE && t.types[ino] != FS_TYPE_DIR
    ensures TreeOk(t.(names := WithName(t.names, p, key, ino)))
  {
    TreeLinked(t, p, key, ino);
    assert DirAt(t, p);
    LinksSame(t, t.(names := WithName(t.names, p, key, ino)));
  }

  lemma UnlinkKeepsTree(t: Tree, p: nat, key: seq<Byte>, open: bool)
    requires TreeOk(t) && p in t.names && Ordinary(key) && key in t.names[p] && t.names[p][key] !in t.names
    ensures t.names[p][key] < |t.links| && TreeOk(UnlinkedTree(t, p, key, open))
  {
    TreeUnlinked(t, p, key);
    assert EntryAt(t, p, key);
    var t' := UnlinkedTree(t, p, key, open);
    var u := t.(names := WithoutName(t.names, p, key));
    ShapeSame(u, t');
    LinksSame(t, t');
  }

  lemma ShapeSame(t: Tree, t': Tree)
    requires Shape(t) && t'.names == t.names && t'.types == t.types
    ensures Shape(t')
  {
    forall p ensures DirAt(t', p) { assert DirAt(t, p); }
    forall p, key ensures EntryAt(t', p, key) { assert EntryAt(t, p, key); }
  }

  lemma RmdirKeepsTree(t: Tree, p: nat, key: seq<Byte>)
    requires TreeOk(t) && EmptyDirAt(t, p, key)
    ensures t.names[p][key] < |t.links| && p < |t.links| && TreeOk(RemovedTree(t, p, key))
  {
    TreeRemoved(t, p, key);
    NotInItself(t, p, key);
    assert EntryAt(t, p, key) && DirAt(t, p);
    var c := t.names[p][key];
    var t' := RemovedTree(t, p, key);
    ShapeSame(t.(names := WithoutName(t.names, p, key) - {c}), t');
    forall d ensures LinkAt(t', d) { RmdirLinks(t, p, key, d); }
  }

  lemma RmdirLinks(t: Tree, p: nat, key: seq<Byte>, d: nat)
    requires TreeOk(t) && EmptyDirAt(t, p, key) && t.names[p][key] < |t.links| && p < |t.links| && t.names[p][key] != p
    ensures LinkAt(RemovedTree(t, p, key), d)
  {
    var c := t.names[p][key];
    var v, v' := t.names, RemovedTree(t, p, key).names;
    assert LinkAt(t, d) && LinkAt(t, p) && EntryAt(t, p, key) && DirAt(t, d);
    assert Subdirs(v', d) == Subdirs(v, d) - {c};
    assert c in Subdirs(v, p);
    SubdirsBound(t, p);
    if d == p {
      assert |Subdirs(v, p)| == |Subdirs(v, p) - {c}| + 1;
    } else if d in v' {
      assert c !in Subdirs(v, d);
    }
  }

  /** There are fewer directories than a link count can tell. */
  lemma SubdirsBound(t: Tree, d: nat)
    requires Shape(t)
    ensures |Subdirs(t.names, d)| <= INODE_COUNT
  {
    var all := FsModel.Range(0, INODE_COUNT);
    var s: set<int> := set c | c in Subdirs(t.names, d) :: c as int;
    assert s == Subdirs(t.names, d);
    forall c | c in s ensures c in all { assert DirAt(t, c); }
    FsModel.SubsetCard(s, all);
  }

  lemma CreateKeepsTree(t: Tree, p: nat, key: seq<Byte>, kind: nat, id: nat)
    requires TreeOk(t) && p in t.names && key !in t.names[p] && (kind == FS_TYPE_DIR || kind == FS_TYPE_FILE)
    requires 0 < id < INODE_COUNT && t.types[id] == FS_TYPE_NONE
    ensures p < |t.links| && id !in t.names && TreeOk(CreatedTree(t, p, key, kind, id))
  {
    assert DirAt(t, p) && DirAt(t, id);
    TreeSpent(t, id, kind);
    var t' := CreatedTree(t, p, key, kind, id);
    if kind == FS_TYPE_DIR {
      TreeMade(t, id, p, key);
      ShapeSame(t.(names := t'.names, types := t'.types), t');
      forall d ensures LinkAt(t', d) { MkdirLinks(t, p, key, id, d); }
    } else {
      var u := t.(types := t.types[id := kind]);
      TreeLinked(u, p, key, id);
      ShapeSame(u.(names := t'.names), t');
      LinksSame(t, t');
    }
  }

  lemma MkdirSubdirs(v: DirView, p: nat, key: seq<Byte>, id: nat, d: nat)
    requires p in v && p != id && id !in v && id != ROOT_INODE && key != DOTDOT && d != id
    ensures Subdirs(WithName(v[id := FreshNames(id, p)], p, key, id), d) == Subdirs(v, d) + if d == p then {id} else {}
  {
    var v' := WithName(v[id := FreshNames(id, p)], p, key, id);
    forall c ensures c in Subdirs(v', d) <==> c in Subdirs(v, d) || (c == id && d == p) {
      if c != id { assert SameUp(v, v', c); }
    }
  }

  lemma MkdirLinks(t: Tree, p: nat, key: seq<Byte>, id: nat, d: nat)
    requires TreeOk(t) && p in t.names && key !in t.names[p] && p < |t.links| && id !in t.names && 0 < id < INODE_COUNT
    ensures LinkAt(CreatedTree(t, p, key, FS_TYPE_DIR, id), d)
  {
    var v' := CreatedTree(t, p, key, FS_TYPE_DIR, id).names;
    assert LinkAt(t, d) && DirAt(t, p);
    if d == id {
      forall c ensures c !in Subdirs(v', id) { assert DirAt(t, c); }
      assert Subdirs(v', id) == {};
    } else {
      MkdirSubdirs(t.names, p, key, id, d);
    }
  }

  /** Every operation keeps the tree. */
  lemma StepKeepsTree(t: Tree, op: DirOp, room: bool, out: DirOut, t': Tree)
    requires TreeOk(t) && Allowed(t, op) && DirStep(t, op, room, out, t')
    ensures TreeOk(t')
  {
    match op
    case OpLn(p, name, ino) =>
      if out.status == Done { LnKeepsTree(t, p, Key(name), ino); }
    case OpUnlink(p, name, open) =>
      if out.status == Done { UnlinkKeepsTree(t, p, Key(name), open); }
    case OpRmdir(p, name) =>
      if out.status == Done { RmdirKeepsTree(t, p, Key(name)); }
    case OpCreate(p, name, kind) =>
      var id := FreeNumber(t.types, 1);
      if out.status == Failed { SpentKeepsTree(t, id, kind); }
      if out.status == Done { CreateKeepsTree(t, p, Key(name), kind, id); }
    case OpReap(id) =>
      ShapeSame(t, t');
      LinksSame(t, t');
    case _ =>
  }

  lemma SpentKeepsTree(t: Tree, id: nat, kind: nat)
    requires TreeOk(t) && 0 < id < INODE_COUNT && t.types[id] == FS_TYPE_NONE && kind != FS_TYPE_NONE
    ensures TreeOk(t.(types := t.types[id := kind], links := t.links[id := 0]))
  {
    TreeSpent(t, id, kind);
    var t' := t.(types := t.types[id := kind], links := t.links[id := 0]);
    ShapeSame(t.(types := t.types[id := kind]), t');
    LinksSame(t, t');
  }

  /** An empty directory counts one link, so that taking it off deletes the directory. */
  lemma EmptyHasOneLink(t: Tree, p: nat, key: seq<Byte>)
    requires TreeOk(t) && EmptyDirAt(t, p, key)
    ensures t.names[p][key] < |t.links| && t.links[t.names[p][key]] == 1
  {
    var c := t.names[p][key];
    assert EntryAt(t, p, key) && LinkAt(t, c);
    forall q ensures q !in Subdirs(t.names, c) {
      assert DirAt(t, q) && DirAt(t, c);
      assert !NamedIn(t.names[c], q);
    }
    assert Subdirs(t.names, c) == {};
  }

  // ---- no name without its file ----

  /** The only operation after which a name can lead to a deleted file is the removal of a name: it does exactly if it
      deletes the file while another name leads to it. */
  lemma UnlinkDanglesIff(t: Tree, p: nat, key: seq<Byte>, open: bool)
    requires TreeOk(t) && AllLive(t) && p in t.names && UnlinkStatus(t, p, key) == Done
    ensures t.names[p][key] < |t.links|
    ensures AllLive(UnlinkedTree(t, p, key, open)) <==>
      t.names[p][key] in UnlinkedTree(t, p, key, open).live ||
      forall q, k :: LeadsTo(t, q, k, t.names[p][key]) ==> q == p && k == key
  {
    assert EntryAt(t, p, key);
    var c := t.names[p][key];
    var t' := UnlinkedTree(t, p, key, open);
    assert c !in t'.names;
    if c !in t'.live {
      if forall q, k :: LeadsTo(t, q, k, c) ==> q == p && k == key {
        forall q, k ensures LiveAt(t', q, k) {
          assert LiveAt(t, q, k);
          assert q in t'.names && k in t'.names[q] ==> !LeadsTo(t, q, k, c);
        }
      } else {
        var q, k :| LeadsTo(t, q, k, c) && !(q == p && k == key);
        assert !LiveAt(t', q, k);
      }
    } else {
      forall q, k ensures LiveAt(t', q, k) { assert LiveAt(t, q, k); }
    }
  }

  /** Hard links are not counted: after a second name for a file, removing the first deletes it. */
  lemma LnThenRm(t: Tree, p: nat, a: seq<Byte>, q: nat, b: seq<Byte>)
    requires TreeOk(t) && Clean(t) && p in t.names && q in t.names && UnlinkStatus(t, p, a) == Done && b !in t.names[q]
    ensures t.names[p][a] < |t.types| && LnStatus(t, q, b, t.names[p][a], true) == Done
    ensures var u := t.(names := WithName(t.names, q, b, t.names[p][a]));
      && UnlinkStatus(u, p, a) == Done && u.names[p][a] < |u.links|
      && !LiveAt(UnlinkedTree(u, p, a, false), q, b)
  {
    var c := t.names[p][a];
    assert EntryAt(t, p, a) && CountedAt(t, c) && LiveAt(t, p, a) && DirAt(t, q);
    assert LeadsTo(t, p, a, c);
  }

  /** As long as nothing is given a second name, every name leads to an inode that exists. */
  lemma StepKeepsClean(t: Tree, op: DirOp, room: bool, out: DirOut, t': Tree)
    requires TreeOk(t) && Clean(t) && Allowed(t, op) && DirStep(t, op, room, out, t')
    requires op.OpLn? ==> out.status != Done
    ensures Clean(t')
  {
    match op
    case OpUnlink(p, name, open) =>
      if out.status == Done { UnlinkKeepsClean(t, p, Key(name), open); }
    case OpRmdir(p, name) =>
      if out.status == Done { RmdirKeepsClean(t, p, Key(name)); }
    case OpCreate(p, name, kind) =>
      var id := FreeNumber(t.types, 1);
      if out.status == Done { CreateKeepsClean(t, p, Key(name), kind, id); }
      if out.status == Failed { SpentKeepsClean(t, id, kind); }
    case OpReap(id) => ReapKeepsClean(t, id, t');
    case _ =>
  }

  lemma UnlinkKeepsClean(t: Tree, p: nat, key: seq<Byte>, open: bool)
    requires TreeOk(t) && Clean(t) && p in t.names && UnlinkStatus(t, p, key) == Done
    ensures t.names[p][key] < |t.links| && Clean(UnlinkedTree(t, p, key, open))
  {
    assert EntryAt(t, p, key);
    var c := t.names[p][key];
    var t' := UnlinkedTree(t, p, key, open);
    assert LeadsTo(t, p, key, c) && CountedAt(t, c);
    UnlinkDanglesIff(t, p, key, open);
    forall x ensures CountedAt(t', x) {
      assert CountedAt(t, x);
      forall q, k ensures LeadsTo(t', q, k, x) <==> LeadsTo(t, q, k, x) && (q != p || k != key) {}
      if x != c && Named(t, x) {
        var q, k :| LeadsTo(t, q, k, x);
        assert LeadsTo(t', q, k, x);
      }
    }
  }

  lemma RmdirKeepsClean(t: Tree, p: nat, key: seq<Byte>)
    requires TreeOk(t) && Clean(t) && EmptyDirAt(t, p, key)
    ensures t.names[p][key] < |t.links| && p < |t.links| && Clean(RemovedTree(t, p, key))
  {
    assert EntryAt(t, p, key) && DirAt(t, p);
    var c := t.names[p][key];
    var t' := RemovedTree(t, p, key);
    NotInItself(t, p, key);
    forall q, k ensures LiveAt(t', q, k) {
      assert LiveAt(t, q, k);
      if q in t'.names && k in t'.names[q] { OnlyWay(t, p, key, q, k); }
    }
    forall x ensures CountedAt(t', x) {
      assert CountedAt(t, x) && DirAt(t, c);
      forall q, k | x != c ensures LeadsTo(t', q, k, x) <==> LeadsTo(t, q, k, x) {
        assert q == c && q in t.names && k in t.names[q] ==> k in t.names[c].Keys;
      }
      if x != c && Named(t, x) {
        var q, k :| LeadsTo(t, q, k, x);
        assert LeadsTo(t', q, k, x);
      }
    }
  }

  lemma CreateKeepsClean(t: Tree, p: nat, key: seq<Byte>, kind: nat, id: nat)
    requires TreeOk(t) && Clean(t) && p in t.names && key !in t.names[p] && (kind == FS_TYPE_DIR || kind == FS_TYPE_FILE)
    requires 0 < id < INODE_COUNT && t.types[id] == FS_TYPE_NONE
    ensures p < |t.links| && Clean(CreatedTree(t, p, key, kind, id))
  {
    assert DirAt(t, p) && DirAt(t, id);
    var t' := CreatedTree(t, p, key, kind, id);
    forall q, k ensures !LeadsTo(t, q, k, id) && LiveAt(t', q, k) { assert EntryAt(t, q, k) && LiveAt(t, q, k); }
    assert kind == FS_TYPE_FILE ==> LeadsTo(t', p, key, id);
    forall x ensures CountedAt(t', x) {
      assert CountedAt(t, x);
      forall q, k | x != id ensures LeadsTo(t', q, k, x) <==> LeadsTo(t, q, k, x) {}
      forall q, k | x == id && LeadsTo(t', q, k, x) ensures q == p && k == key { assert !LeadsTo(t, q, k, id); }
      if x != id && Named(t, x) {
        var q, k :| LeadsTo(t, q, k, x);
        assert LeadsTo(t', q, k, x);
      }
    }
  }

  lemma SpentKeepsClean(t: Tree, id: nat, kind: nat)
    requires TreeOk(t) && Clean(t) && 0 < id < INODE_COUNT && t.types[id] == FS_TYPE_NONE
    ensures Clean(t.(types := t.types[id := kind], links := t.links[id := 0]))
  {
    var t' := t.(types := t.types[id := kind], links := t.links[id := 0]);
    forall q, k ensures LiveAt(t', q, k) && (LeadsTo(t', q, k, id) <==> LeadsTo(t, q, k, id)) && !LeadsTo(t, q, k, id) {
      assert EntryAt(t, q, k) && LiveAt(t, q, k);
    }
    forall x ensures CountedAt(t', x) {
      assert CountedAt(t, x);
      forall q, k ensures LeadsTo(t', q, k, x) <==> LeadsTo(t, q, k, x) {}
      if Named(t, x) {
        var q, k :| LeadsTo(t, q, k, x);
        assert LeadsTo(t', q, k, x);
      }
    }
  }

  lemma ReapKeepsClean(t: Tree, id: nat, t': Tree)
    requires TreeOk(t) && Clean(t)
    requires t' == t || (id in t.live && id !in t.names && id < INODE_COUNT && t.links[id] == 0)
    requires t' == t || t' == t.(live := t.live - {id})
    ensures Clean(t')
  {
    assert CountedAt(t, id);
    forall q, k ensures LiveAt(t', q, k) {
      assert LiveAt(t, q, k);
      assert t' != t && q in t.names && k in t.names[q] && t.names[q][k] == id ==> LeadsTo(t, q, k, id);
    }
    forall x ensures CountedAt(t', x) {
      assert CountedAt(t, x);
      forall q, k ensures LeadsTo(t', q, k, x) <==> LeadsTo(t, q, k, x) {}
      if Named(t, x) {
        var q, k :| LeadsTo(t, q, k, x);
        assert LeadsTo(t', q, k, x);
      }
    }
  }

  // ---- the operations in plain terms ----

  /** A creation that succeeds gives the least free number a name that was not there, and changes no other name; a new
      directory has its two dots and nothing else. */
  lemma CreateDoes(t: Tree, p: nat, name: seq<Byte>, kind: nat, room: bool, out: DirOut, t': Tree) returns (id: nat)
    requires TreeOk(t) && Allowed(t, OpCreate(p, name, kind)) && DirStep(t, OpCreate(p, name, kind), room, out, t')
    requires out.status == Done
    ensures room && Key(name) !in t.names[p] && 0 < id < 32768 == |t.types| && t.types[id] == 0
    ensures forall k :: 0 < k < id ==> t.types[k] != 0
    ensures p in t'.names && t'.names[p] == t.names[p][Key(name) := id] && t'.types == t.types[id := kind]
    ensures t'.names.Keys == (if kind == 1 then t.names.Keys + {id} else t.names.Keys) && id !in t.names
    ensures kind == 1 ==> t'.names[id] == map[[46] := id, [46, 46] := p]
    ensures forall q :: q in t.names && q != p ==> t'.names[q] == t.names[q]
    ensures id in t'.live && t'.live == t.live + {id} && |t'.links| == |t.links| && t'.links[id] == 1
  {
    id := FreeNumber(t.types, 1);
    assert DirAt(t, p) && DirAt(t, id);
  }

  /** A creation that does not succeed changes no name, and which it is depends on what the name leads to. */
  lemma CreateRefuses(t: Tree, p: nat, name: seq<Byte>, kind: nat, room: bool, out: DirOut, t': Tree)
    requires TreeOk(t) && Allowed(t, OpCreate(p, name, kind)) && DirStep(t, OpCreate(p, name, kind), room, out, t')
    requires out.status != Done
    ensures t'.names == t.names && t'.live == t.live
    ensures Key(name) !in t.names[p] <==> out.status == Halted || out.status == Failed
    ensures out.status == Failed ==> !room
    ensures out.status == Halted <==>
      Key(name) !in t.names[p] && forall k :: 0 < k < 32768 && k < |t.types| ==> t.types[k] != 0
    ensures out.status == Exists ==> var c := t.names[p][Key(name)]; c in t.live && c < |t.types| && t.types[c] == kind
    ensures out.status == TypeMismatch ==> var c := t.names[p][Key(name)]; c >= |t.types| || t.types[c] != kind
    ensures out.status == Dangling ==> t.names[p][Key(name)] !in t.live
    ensures out.status != NotExists && out.status != NoPermission && out.status != NotEmpty
  {
  }

  /** A removal succeeds exactly for a name other than the dots that leads to an existing file; it takes that name
      away and no other, and the file with it exactly if that was its last counted link and it is not open. */
  lemma UnlinkDoes(t: Tree, p: nat, name: seq<Byte>, open: bool, out: DirOut, t': Tree)
    requires TreeOk(t) && p in t.names && DirStep(t, OpUnlink(p, name, open), true, out, t')
    ensures out.status == Done <==>
      && Key(name) != [46] && Key(name) != [46, 46] && Key(name) in t.names[p]
      && t.names[p][Key(name)] in t.live && t.names[p][Key(name)] !in t.names
    ensures out.status != Done ==> t' == t
    ensures out.status == Done ==>
      var c := t.names[p][Key(name)];
      && t'.names.Keys == t.names.Keys && t'.names[p] == t.names[p] - {Key(name)}
      && (forall q :: q in t.names && q != p ==> t'.names[q] == t.names[q])
      && c < |t.links| && t'.types == t.types && (0 < t.links[c] <= 65535 ==> t'.links == t.links[c := t.links[c] - 1])
      && (t.links[c] <= 65535 ==> t'.live == t.live - if t.links[c] == 1 && !open then {c} else {})
    ensures out.status == NoPermission <==> Key(name) == [46] || Key(name) == [46, 46]
    ensures out.status == NotExists <==> Key(name) != [46] && Key(name) != [46, 46] && Key(name) !in t.names[p]
  {
    if out.status == Done { assert EntryAt(t, p, Key(name)); LessIs(t.links[t.names[p][Key(name)]]); }
  }

  lemma LessIs(n: nat)
    ensures 0 < n <= 65535 ==> Less(n) == n - 1
    ensures n <= 65535 ==> (Less(n) == 0 <==> n == 1)
  {
  }

  /** A removal of a directory succeeds exactly for a name other than the dots that leads to a directory with nothing
      but its two dots; it takes that name and that directory away, and nothing else. */
  lemma RmdirDoes(t: Tree, p: nat, name: seq<Byte>, out: DirOut, t': Tree)
    requires TreeOk(t) && p in t.names && DirStep(t, OpRmdir(p, name), true, out, t')
    ensures out.status == Done <==>
      && Key(name) != [46] && Key(name) != [46, 46] && Key(name) in t.names[p] && t.names[p][Key(name)] in t.names
      && t.names[t.names[p][Key(name)]].Keys == {[46], [46, 46]}
    ensures out.status != Done ==> t' == t
    ensures out.status == Done ==>
      var c := t.names[p][Key(name)];
      && c != p && t'.names.Keys == t.names.Keys - {c} && t'.names[p] == t.names[p] - {Key(name)}
      && (forall q :: q in t'.names && q != p ==> t'.names[q] == t.names[q])
      && t'.live == t.live - {c} && t'.types == t.types
  {
    if out.status == Done {
      assert EntryAt(t, p, Key(name)) && DirAt(t, p);
      NotInItself(t, p, Key(name));
    }
  }

  /** A second name is added exactly for an existing inode that is no directory, under a name not in use, if there is
      room; no other name changes. */
  lemma LnDoes(t: Tree, p: nat, name: seq<Byte>, ino: nat, room: bool, out: DirOut, t': Tree)
    requires TreeOk(t) && Allowed(t, OpLn(p, name, ino)) && DirStep(t, OpLn(p, name, ino), room, out, t')
    ensures out.status == Done <==> ino in t.live && t.types[ino] != 1 && Key(name) !in t.names[p] && room
    ensures out.status != Done ==> t' == t
    ensures out.status == Done ==>
      && t'.names.Keys == t.names.Keys && t'.names[p] == t.names[p][Key(name) := ino]
      && (forall q :: q in t.names && q != p ==> t'.names[q] == t.names[q])
      && t'.live == t.live && t'.types == t.types && t'.links == t.links
  {
  }

  /** Creating a file and removing its name brings back all names and all existing inodes. */
  lemma CreateThenUnlink(t: Tree, p: nat, name: seq<Byte>, room: bool, out: DirOut, u: Tree, out': DirOut, t': Tree)
    requires TreeOk(t) && TreeOk(u) && p in t.names && p in u.names
    requires DirStep(t, OpCreate(p, name, 2), room, out, u) && out.status == Done
    requires DirStep(u, OpUnlink(p, name, false), true, out', t')
    ensures Key(name) != [46] && Key(name) != [46, 46] && out'.status == Done
    ensures t'.names == t.names && (FreeNumber(t.types, 1) !in t.live ==> t'.live == t.live)
  {
    var id := CreateDoes(t, p, name, 2, room, out, u);
    UnlinkDoes(u, p, name, false, out', t');
    assert DirAt(t, p);
    assert t'.names[p] == t.names[p];
  }

  /** Making a directory and removing it brings back all names, all link counts but the used number's, and all existing
      inodes. */
  lemma MkdirThenRmdir(t: Tree, p: nat, name: seq<Byte>, room: bool, out: DirOut, u: Tree, out': DirOut, t': Tree)
    requires TreeOk(t) && TreeOk(u) && p in t.names && p in u.names
    requires DirStep(t, OpCreate(p, name, 1), room, out, u) && out.status == Done
    requires DirStep(u, OpRmdir(p, name), true, out', t')
    ensures Key(name) != [46] && Key(name) != [46, 46] && out'.status == Done && t'.names == t.names
    ensures FreeNumber(t.types, 1) !in t.live ==> t'.live == t.live
    ensures p < |t.links| == |t'.links| && t'.links[p] == t.links[p]
  {
    var id := CreateDoes(t, p, name, 1, room, out, u);
    assert DirAt(t, p) && LinkAt(t, p) && LinkAt(u, p);
    RmdirDoes(u, p, name, out', t');
    assert t'.names[p] == t.names[p];
    SubdirsBound(t, p);
    LessIs(t.links[p] + 1);
  }

  // ---- runs ----

  /** A creation waits for itself exactly if it is asked for ".", or for ".." in the root. */
  lemma SelfLockedIff(t: Tree, p: nat, key: seq<Byte>, kind: nat, room: bool)
    requires TreeOk(t) && p in t.names
    ensures CreateStatus(t, p, key, kind, room) == SelfLocked <==> key == DOT || (key == DOTDOT && p == ROOT_INODE)
  {
    assert DirAt(t, p) && DirAt(t, ROOT_INODE);
    if key in t.names[p] && Ordinary(key) { NotInItself(t, p, key); }
    if t.names[p][DOTDOT] == p {
      var n :| Climb(t.names, p, n) == ROOT_INODE;
      ClimbLoop(t.names, p, n);
    }
  }

  /** In a file system just made, mkdir of "." never returns. */
  lemma MkdirDot(t: Tree)
    requires t.names == map[ROOT_INODE := FreshNames(ROOT_INODE, ROOT_INODE)] && |t.types| == INODE_COUNT
    ensures CreateStatus(t, ROOT_INODE, DOT, FS_TYPE_DIR, true) == SelfLocked
  {
  }

  /** After it no operation is answered in this run. */
  predicate Final(s: Status) { s == SelfLocked || s == Dangling || s == Halted }

  /** One step of a run: what is not allowed is skipped. */
  ghost predicate RunStep(t: Tree, op: DirOp, room: bool, out: DirOut, t': Tree) {
    TreeOk(t) && if Allowed(t, op) then DirStep(t, op, room, out, t') else t' == t
  }

  /** A run so far: the directories form a tree all along, every answer and every effect is that of the names alone,
      and a name is refused for want of room only on a disk with at most three free blocks. */
  ghost predicate RunOk(ops: seq<DirOp>, outs: seq<DirOut>, trees: seq<Tree>, room: seq<bool>, used: seq<int>) {
    && |outs| == |room| <= |ops| && |trees| == |used| == |outs| + 1
    && (forall i :: TreeIn(trees, i))
    && (forall i :: StepIn(ops, outs, trees, room, used, i))
  }

  ghost predicate TreeIn(trees: seq<Tree>, i: int) { 0 <= i < |trees| ==> TreeOk(trees[i]) }

  ghost predicate StepIn(ops: seq<DirOp>, outs: seq<DirOut>, trees: seq<Tree>, room: seq<bool>, used: seq<int>, i: int)
    requires |outs| == |room| <= |ops| && |trees| == |used| == |outs| + 1
  {
    0 <= i < |outs| ==>
      RunStep(trees[i], ops[i], room[i], outs[i], trees[i + 1]) && (room[i] || used[i] + 4 > FsModel.BLOCK_COUNT)
  }

  lemma RunOkMore(ops: seq<DirOp>, outs: seq<DirOut>, trees: seq<Tree>, room: seq<bool>, used: seq<int>,
                  out: DirOut, t: Tree, fits: bool, n: int)
    requires RunOk(ops, outs, trees, room, used) && |outs| < |ops| && TreeOk(t)
    requires RunStep(trees[|outs|], ops[|outs|], fits, out, t) && (fits || used[|outs|] + 4 > FsModel.BLOCK_COUNT)
    ensures RunOk(ops, outs + [out], trees + [t], room + [fits], used + [n])
  {
    forall i ensures TreeIn(trees + [t], i) { assert TreeIn(trees, i); }
    forall i ensures StepIn(ops, outs + [out], trees + [t], room + [fits], used + [n], i) {
      assert StepIn(ops, outs, trees, room, used, i);
    }
  }

  /** A number that was used once stays used: deleting an inode never makes its number free again. */
  lemma {:induction false} NumbersStay(ops: seq<DirOp>, outs: seq<DirOut>, trees: seq<Tree>, room: seq<bool>,
                                       used: seq<int>, i: nat, j: nat, n: nat)
    requires RunOk(ops, outs, trees, room, used) && i <= j < |trees| && n < |trees[i].types|
    requires trees[i].types[n] != FS_TYPE_NONE
    ensures |trees[j].types| == |trees[i].types| && trees[j].types[n] == trees[i].types[n]
    decreases j - i
  {
    assert TreeIn(trees, i);
    if i < j {
      assert StepIn(ops, outs, trees, room, used, i) && TreeIn(trees, i + 1);
      NumbersStay(ops, outs, trees, room, used, i + 1, j, n);
    }
  }

  // ---- what the files hold ----

  /** Every file that is no directory holds what it held, or nothing if it is new. */
  ghost predicate ContentsKept(files: map<nat, FsModel.File>, files': map<nat, FsModel.File>, dirs': set<nat>) {
    forall x :: x in files' && x !in dirs' ==> files'[x] == if x in files then files[x] else FsModel.EmptyFile()
  }

  lemma KeptMeans(files: map<nat, FsModel.File>, files': map<nat, FsModel.File>, p: nat, dirs': set<nat>)
    requires KeptBut(files, files', {p}) && p in dirs'
    ensures ContentsKept(files, files', dirs')
  {
  }

  /** A new inode is empty when its name is written into p, and its own entries if it is a directory. */
  lemma NewIsEmpty(files: map<nat, FsModel.File>, mid: map<nat, FsModel.File>, files': map<nat, FsModel.File>, id: nat,
                   p: nat, dir: bool, dirs': set<nat>)
    requires id !in files && mid == files[id := FsModel.EmptyFile()] && p in dirs'
    requires KeptBut(mid, files', if dir then {id, p} else {p}) && (dir && id in files' ==> id in dirs')
    ensures ContentsKept(files, files', dirs')
  {
  }

  /** The first n bytes of src are in file id at the offset, and all else is as it was. */
  predicate Wrote(files: map<nat, FsModel.File>, id: nat, offset: nat, src: seq<Byte>, n: nat,
                  files': map<nat, FsModel.File>)
    requires id in files && offset < FsModel.UINT32
  {
    n <= |src| && files' == files[id := FsModel.Written(files[id], offset, src[..n])]
  }

  /** What an operation does to the files: only a write changes any, and it stops short only on a full disk. */
  ghost predicate FilesStep(t: Tree, files: map<nat, FsModel.File>, op: DirOp, used: int, t': Tree,
                            files': map<nat, FsModel.File>)
  {
    if op.OpWrite? && Allowed(t, op) && op.id in files && op.id !in t.names
    then exists n :: Wrote(files, op.id, op.offset, op.src, n, files') && (n == |op.src| || used == FsModel.BLOCK_COUNT)
    else ContentsKept(files, files', t'.names.Keys)
  }

  /** The files are the inodes that exist, and those of the type directory are the directories. */
  ghost predicate FilesOk(t: Tree, files: map<nat, FsModel.File>) {
    files.Keys == t.live && Typed(t.live, t.types, t.names.Keys)
  }

  /** The files all along a run. */
  ghost predicate FilesRun(ops: seq<DirOp>, trees: seq<Tree>, used: seq<int>, files: seq<map<nat, FsModel.File>>) {
    && |files| == |trees| == |used| <= |ops| + 1
    && forall i :: FilesIn(ops, trees, used, files, i)
  }

  ghost predicate FilesIn(ops: seq<DirOp>, trees: seq<Tree>, used: seq<int>, files: seq<map<nat, FsModel.File>>, i: int)
    requires |files| == |trees| == |used| <= |ops| + 1
  {
    && (0 <= i < |files| ==> FilesOk(trees[i], files[i]))
    && (0 <= i < |files| - 1 ==> FilesStep(trees[i], files[i], ops[i], used[i + 1], trees[i + 1], files[i + 1]))
  }

  /** A run of n operations leads from the first state to the last. */
  ghost predicate Spans(trees: seq<Tree>, used: seq<int>, files: seq<map<nat, FsModel.File>>, n: nat,
                        t: Tree, u: int, f: map<nat, FsModel.File>, t': Tree, u': int, f': map<nat, FsModel.File>) {
    && |trees| == |used| == |files| == n + 1
    && trees[0] == t && used[0] == u && files[0] == f && trees[n] == t' && used[n] == u' && files[n] == f'
  }

  lemma FilesRunMore(ops: seq<DirOp>, trees: seq<Tree>, used: seq<int>, files: seq<map<nat, FsModel.File>>, t: Tree,
                     n: int, f: map<nat, FsModel.File>)
    requires FilesRun(ops, trees, used, files) && 0 < |files| <= |ops| && FilesOk(t, f)
    requires FilesStep(trees[|files| - 1], files[|files| - 1], ops[|files| - 1], n, t, f)
    ensures FilesRun(ops, trees + [t], used + [n], files + [f])
  {
    forall i ensures FilesIn(ops, trees + [t], used + [n], files + [f], i) {
      assert FilesIn(ops, trees, used, files, i);
    }
  }

  /** What is deleted stays deleted: its number is not given out again. */
  lemma {:induction false} DeletedStays(ops: seq<DirOp>, outs: seq<DirOut>, trees: seq<Tree>, room: seq<bool>,
                                        used: seq<int>, i: nat, j: nat, n: nat)
    requires RunOk(ops, outs, trees, room, used) && i <= j < |trees| && n < |trees[i].types|
    requires trees[i].types[n] != FS_TYPE_NONE && n !in trees[i].live
    ensures n !in trees[j].live
    decreases j - i
  {
    assert TreeIn(trees, i);
    if i < j {
      assert StepIn(ops, outs, trees, room, used, i) && TreeIn(trees, i + 1);
      DeletedStays(ops, outs, trees, room, used, i + 1, j, n);
    }
  }

  /** Whatever happens to names, directories and other files in a run, a file that is not written and still exists at
      the end holds the bytes it held. */
  lemma {:induction false} BytesStay(ops: seq<DirOp>, outs: seq<DirOut>, trees: seq<Tree>, room: seq<bool>,
                                     used: seq<int>, files: seq<map<nat, FsModel.File>>, i: nat, j: nat, x: nat)
    requires RunOk(ops, outs, trees, room, used) && FilesRun(ops, trees, used, files) && i <= j < |trees|
    requires x in files[i] && x !in trees[i].names && x in files[j]
    requires forall k :: i <= k < j ==> !(ops[k].OpWrite? && ops[k].id == x)
    ensures files[j][x] == files[i][x] && x !in trees[j].names
    decreases j - i
  {
    assert FilesIn(ops, trees, used, files, i) && FilesIn(ops, trees, used, files, j);
    assert TypedAt(trees[i].live, trees[i].types, trees[i].names.Keys, x);
    if i < j {
      NumbersStay(ops, outs, trees, room, used, i, i + 1, x);
      assert FilesIn(ops, trees, used, files, i + 1);
      if x !in files[i + 1] { DeletedStays(ops, outs, trees, room, used, i + 1, j, x); }
      assert TypedAt(trees[i + 1].live, trees[i + 1].types, trees[i + 1].names.Keys, x);
      BytesStay(ops, outs, trees, room, used, files, i + 1, j, x);
    }
  }

  /** The operation opens what its name leads to. */
  predicate Opens(op: DirOp) { op.OpUnlink? || op.OpRmdir? || op.OpCreate? }

  /** In a run that gives nothing a second name, no operation ever meets a deleted inode. */
  lemma {:induction false} NeverDangling(ops: seq<DirOp>, outs: seq<DirOut>, trees: seq<Tree>, room: seq<bool>,
                                         used: seq<int>, i: nat)
    requires RunOk(ops, outs, trees, room, used) && i < |trees| && Clean(trees[0])
    requires forall k :: 0 <= k < i && ops[k].OpLn? && Allowed(trees[k], ops[k]) ==> outs[k].status != Done
    ensures Clean(trees[i])
    ensures i < |outs| && Allowed(trees[i], ops[i]) && Opens(ops[i]) ==> outs[i].status != Dangling
  {
    if i > 0 {
      NeverDangling(ops, outs, trees, room, used, i - 1);
      assert StepIn(ops, outs, trees, room, used, i - 1);
      if Allowed(trees[i - 1], ops[i - 1]) {
        StepKeepsClean(trees[i - 1], ops[i - 1], room[i - 1], outs[i - 1], trees[i]);
      }
    }
    if i < |outs| && Allowed(trees[i], ops[i]) && Opens(ops[i]) {
      assert StepIn(ops, outs, trees, room, used, i);
      CleanMeetsNone(trees[i], ops[i], room[i], outs[i], trees[i + 1]);
    }
  }

  lemma CleanMeetsNone(t: Tree, op: DirOp, room: bool, out: DirOut, t': Tree)
    requires TreeOk(t) && Clean(t) && Allowed(t, op) && DirStep(t, op, room, out, t')
    requires Opens(op)
    ensures out.status != Dangling
  {
    assert LiveAt(t, op.p, Key(op.name));
  }

  // ---- the tree in the slots ----

  lemma NamesDropped(dirs: map<nat, Slots>, id: nat)
    ensures NamesOf(dirs - {id}) == NamesOf(dirs) - {id}
  {
  }

  /** The slots of a file system just made. */
  lemma RootDirs(dirs: map<nat, Slots>)
    requires dirs.Keys == {ROOT_INODE} && DirOk(dirs[ROOT_INODE])
    ensures AllFormed(dirs) && NamesOf(dirs) == map[ROOT_INODE := NameMap(dirs[ROOT_INODE])]
  {
    forall p ensures FormedAt(dirs, p) { assert p in dirs ==> p in dirs.Keys; }
  }

  /** What creating leaves in the slots is the new tree. */
  lemma CreatedDirs(t: Tree, dirs: map<nat, Slots>, dirs': map<nat, Slots>, p: nat, name: seq<Byte>, kind: nat, id: nat)
    requires p in dirs && AllFormed(dirs) && id !in dirs && id != 0 && Key(name) !in NameMap(dirs[p])
    requires t.names == NamesOf(dirs) && id < |t.types| == |t.links| && p < |t.links|
    requires dirs' - {id} == LinkedDirs(dirs, p, name, id) && (id in dirs' <==> kind == FS_TYPE_DIR)
    requires kind == FS_TYPE_DIR ==> DirOk(dirs'[id]) && NameMap(dirs'[id]) == FreshNames(id, p)
    ensures AllFormed(dirs') && NamesOf(dirs') == CreatedTree(t, p, Key(name), kind, id).names
  {
    FormedUnique(dirs);
    LinkedDirsOk(dirs, p, name, id);
    var linked := LinkedDirs(dirs, p, name, id);
    assert FormedAt(dirs, p);
    forall q ensures FormedAt(dirs', q) {
      assert FormedAt(dirs, q);
      if q in dirs' && q != id { assert q in dirs' - {id} && dirs'[q] == linked[q]; }
    }
    if kind == FS_TYPE_DIR {
      NamesAdded(linked, dirs', id);
      NamesCommute(t.names, p, Key(name), id, FreshNames(id, p));
    } else {
      assert dirs' == linked;
    }
  }

  /** What taking and placing a new inode leaves: nothing new, a number used up, or the inode under its name with its
      links counted. */
  ghost predicate Settled(t: Tree, dirs: map<nat, Slots>, u: Tree, dirs': map<nat, Slots>, p: nat, name: seq<Byte>,
                          kind: nat, id: nat, r: Status)
    requires p in dirs && p < |t.links| && (r != Halted ==> id < |t.types| == |t.links|)
  {
    match r
    case Halted => dirs' == dirs && u == t
    case Failed => dirs' == dirs && u == t.(types := t.types[id := kind], links := t.links[id := 0])
    case Done =>
      && dirs' - {id} == LinkedDirs(dirs, p, name, id) && (id in dirs' <==> kind == FS_TYPE_DIR)
      && (kind == FS_TYPE_DIR ==> DirOk(dirs'[id]) && NameMap(dirs'[id]) == FreshNames(id, p))
      && u.types == t.types[id := kind] && u.live == t.live + {id} && u.links == CountedIn(t.links[id := 0], p, kind, id)
    case _ => false
  }

  function CountedIn(links: seq<nat>, p: nat, kind: nat, id: nat): seq<nat>
    requires p < |links| && id < |links|
  {
    if kind == FS_TYPE_DIR then links[id := 1][p := links[p] + 1] else links[id := 1]
  }

  /** So creating means what it should. */
  lemma CreateMeans(t: Tree, dirs: map<nat, Slots>, u: Tree, dirs': map<nat, Slots>, p: nat, name: seq<Byte>, kind: nat,
                    id: nat, r: Status, room: bool)
    requires TreeOk(t) && t.names == NamesOf(dirs) && u.names == NamesOf(dirs') && AllFormed(dirs)
    requires p in dirs && p < INODE_COUNT && Key(name) !in NameMap(dirs[p])
    requires kind == FS_TYPE_DIR || kind == FS_TYPE_FILE
    requires id == FreeNumber(t.types, 1) && r == if id == INODE_COUNT then Halted else if room then Done else Failed
    requires Settled(t, dirs, u, dirs', p, name, kind, id, r)
    ensures AllFormed(dirs') && TreeOk(u) && DirStep(t, OpCreate(p, name, kind), room, DirOut(r, false, 0), u)
  {
    assert DirAt(t, p) && DirAt(t, id);
    if r == Done {
      CreatedDirs(t, dirs, dirs', p, name, kind, id);
      CreatedIs(t, p, Key(name), kind, id, u);
    }
    StepKeepsTree(t, OpCreate(p, name, kind), room, DirOut(r, false, 0), u);
  }

  lemma NamesAdded(dirs: map<nat, Slots>, dirs': map<nat, Slots>, id: nat)
    requires id in dirs' && id !in dirs && dirs' - {id} == dirs
    ensures NamesOf(dirs') == NamesOf(dirs)[id := NameMap(dirs'[id])]
  {
    assert dirs' == dirs[id := dirs'[id]];
  }

  lemma NamesCommute(v: DirView, p: nat, key: seq<Byte>, id: nat, m: map<seq<Byte>, nat>)
    requires p in v && p != id
    ensures WithName(v[id := m], p, key, id) == WithName(v, p, key, id)[id := m]
  {
  }
}
