/** What the blocks of the file system mean: bitmap, three-level block index, file bytes, and the
    ownership invariant that ties every allocated block to exactly one index slot. */
module FsModel {
  import opened Common
  import opened BlockCache

  const BLOCK_SIZE := 4096
  const NUM_DIRECT_BLOCKS := 10
  const NUM_INDIRECT_BLOCKS := 1024
  const MAP_BITS := 32768
  const BLOCK_MAP_OFFSET := 1
  const NBLOCK_BLOCK_MAP := 32
  const DATABLOCK_OFFSET := 546
  const BLOCK_COUNT := 130526
  const UINT32 := 0x1_0000_0000

  datatype Inode = Inode(size: nat, direct: seq<int>, indirect: int, doubleIndirect: int)

  /** A place that can hold a block number: in the inode, or in one of its index blocks. */
  datatype Ref = Direct(i: nat) | Ind | IndEntry(i: nat) | Dbl | Mid(i: nat) | Leaf(i: nat, j: nat) {
    predicate Ok() {
      match this
      case Direct(i) => i < NUM_DIRECT_BLOCKS
      case IndEntry(i) => i < NUM_INDIRECT_BLOCKS
      case Mid(i) => i < NUM_INDIRECT_BLOCKS
      case Leaf(i, j) => i < NUM_INDIRECT_BLOCKS && j < NUM_INDIRECT_BLOCKS
      case _ => true
    }
    predicate IsIndex() { Ind? || Dbl? || Mid? }
  }

  type Disk = map<int, Content>

  function Entry(d: Disk, b: int, i: nat): int {
    if b in d && d[b].Index? && i < |d[b].entries| then d[b].entries[i] else -1
  }

  /** The block number stored at a reference; negative when none. */
  function Val(d: Disk, ino: Inode, r: Ref): int {
    match r
    case Direct(i) => if i < |ino.direct| then ino.direct[i] else -1
    case Ind => ino.indirect
    case IndEntry(i) => if ino.indirect < 0 then -1 else Entry(d, ino.indirect, i)
    case Dbl => ino.doubleIndirect
    case Mid(i) => if ino.doubleIndirect < 0 then -1 else Entry(d, ino.doubleIndirect, i)
    case Leaf(i, j) =>
      var m := if ino.doubleIndirect < 0 then -1 else Entry(d, ino.doubleIndirect, i);
      if m < 0 then -1 else Entry(d, m, j)
  }

  const MAX_FILE_BLOCKS := NUM_DIRECT_BLOCKS + NUM_INDIRECT_BLOCKS + NUM_INDIRECT_BLOCKS * NUM_INDIRECT_BLOCKS

  /** Where the index keeps the n-th block of a file. */
  function RefOf(n: nat): (r: Ref)
    ensures n < MAX_FILE_BLOCKS ==> r.Ok()
    ensures !r.IsIndex()
  {
    if n < NUM_DIRECT_BLOCKS then Direct(n)
    else if n < NUM_DIRECT_BLOCKS + NUM_INDIRECT_BLOCKS then IndEntry(n - NUM_DIRECT_BLOCKS)
    else
      var k := n - NUM_DIRECT_BLOCKS - NUM_INDIRECT_BLOCKS;
      Leaf(k / NUM_INDIRECT_BLOCKS, k % NUM_INDIRECT_BLOCKS)
  }

  /** Ten blocks are named in the inode, the next 1024 in the indirect block, and the others in 1024 blocks of 1024
      below the double index. */
  lemma RefOfLayout(n: nat)
    ensures match RefOf(n)
      case Direct(i) => n == i < 10
      case IndEntry(i) => n == 10 + i < 1034
      case Leaf(i, j) => n == 1034 + 1024 * i + j && j < 1024
      case _ => false
  {
  }

  /** The map, the inode table and the data blocks share the disk's half gigabyte without gap, and every data block
      has a bit in the map. */
  lemma DiskLayout()
    ensures BLOCK_SIZE == 4096 && MAP_BITS == BLOCK_SIZE * 8 && NUM_INDIRECT_BLOCKS == BLOCK_SIZE / 4
    ensures BLOCK_MAP_OFFSET == 1 && DATABLOCK_OFFSET == 1 + NBLOCK_BLOCK_MAP + 1 + 32768 * 64 / BLOCK_SIZE
    ensures (DATABLOCK_OFFSET + BLOCK_COUNT) * BLOCK_SIZE == 0x2000_0000 && BLOCK_COUNT <= NBLOCK_BLOCK_MAP * MAP_BITS
  {
  }

  lemma RefOfInjective(m: nat, n: nat)
    requires RefOf(m) == RefOf(n)
    ensures m == n
  {
  }

  /** Any block of a file addressed with 32-bit offsets is within the index's reach. */
  lemma OffsetsInRange(offset: nat)
    requires offset < UINT32
    ensures offset / BLOCK_SIZE < MAX_FILE_BLOCKS
  {
  }

  function ByteAt(d: Disk, b: int, k: nat): Byte {
    if b in d && d[b].Data? && k < |d[b].bytes| then d[b].bytes[k] else 0
  }

  /** The byte a file holds at a position; a hole reads as zero. */
  function FileByte(d: Disk, ino: Inode, pos: nat): Byte {
    var v := Val(d, ino, RefOf(pos / BLOCK_SIZE));
    if v < 0 then 0 else ByteAt(d, v, pos % BLOCK_SIZE)
  }

  function Contents(d: Disk, ino: Inode): seq<Byte> {
    seq(ino.size, pos requires 0 <= pos => FileByte(d, ino, pos))
  }

  /** A file with the byte stored at every position a 32-bit offset can name, past its end too. */
  datatype File = File(size: nat, img: seq<Byte>) {
    function Bytes(): seq<Byte> { img[..if size <= |img| then size else |img|] }

    predicate Ok() { size < UINT32 == |img| }

    /** The positions from the end of the file up to `to` hold zeros. */
    ghost predicate ZeroUpTo(to: nat) {
      forall pos :: size <= pos < to && pos < |img| ==> img[pos] == 0
    }
  }

  ghost function FileOf(d: Disk, ino: Inode): File {
    File(ino.size, seq(UINT32, pos requires 0 <= pos => FileByte(d, ino, pos)))
  }

  ghost function FilesOf(d: Disk, inodes: map<nat, Inode>): map<nat, File> {
    map id | id in inodes :: FileOf(d, inodes[id])
  }

  /** All files as byte sequences. */
  function BytesOf(files: map<nat, File>): map<nat, seq<Byte>> {
    map id | id in files :: files[id].Bytes()
  }

  // ---- allocation bits ----

  predicate IsMapBlock(b: int) { BLOCK_MAP_OFFSET <= b < BLOCK_MAP_OFFSET + NBLOCK_BLOCK_MAP }

  predicate IsDataBlock(b: int) { DATABLOCK_OFFSET <= b < DATABLOCK_OFFSET + BLOCK_COUNT }

  /** Whether data block n (counted from the first data block) is marked in use. */
  function Bit(d: Disk, n: int): bool {
    var m := BLOCK_MAP_OFFSET + n / MAP_BITS;
    0 <= n < BLOCK_COUNT && m in d && d[m].Bits? && n % MAP_BITS < |d[m].bits| && d[m].bits[n % MAP_BITS]
  }

  ghost predicate InUse(d: Disk, n: int) { 0 <= n < BLOCK_COUNT ==> Bit(d, n) }

  ghost predicate Geometry(d: Disk) {
    && (forall m :: IsMapBlock(m) ==> m in d && d[m].Bits? && |d[m].bits| == MAP_BITS)
    && (forall b :: IsDataBlock(b) ==> b in d)
  }

  const ZERO_DATA := Data(seq(BLOCK_SIZE, _ => 0))
  const EMPTY_INDEX := Index(seq(NUM_INDIRECT_BLOCKS, _ => -1))

  ghost predicate ShapeOk(c: Content, index: bool) {
    if index then c.Index? && |c.entries| == NUM_INDIRECT_BLOCKS else c.Data? && |c.bytes| == BLOCK_SIZE
  }

  // ---- ownership ----

  type Owners = map<int, (nat, Ref)>

  ghost predicate RefOwned(d: Disk, inodes: map<nat, Inode>, owner: Owners, id: nat, r: Ref) {
    id in inodes && r.Ok() && Val(d, inodes[id], r) >= 0 ==>
      Val(d, inodes[id], r) in owner && owner[Val(d, inodes[id], r)] == (id, r)
  }

  ghost predicate OwnerBacked(d: Disk, inodes: map<nat, Inode>, owner: Owners, v: int) {
    v in owner ==>
      && IsDataBlock(v) && v in d && Bit(d, v - DATABLOCK_OFFSET)
      && owner[v].0 in inodes && owner[v].1.Ok()
      && Val(d, inodes[owner[v].0], owner[v].1) == v
      && ShapeOk(d[v], owner[v].1.IsIndex())
  }

  /** Every block number stored anywhere is owned by that one place, every owned block is marked
      and stored there, and every marked block is owned. */
  ghost predicate Owned(d: Disk, inodes: map<nat, Inode>, owner: Owners) {
    && Geometry(d)
    && (forall id :: id in inodes ==> |inodes[id].direct| == NUM_DIRECT_BLOCKS)
    && (forall id, r: Ref :: RefOwned(d, inodes, owner, id, r))
    && (forall v :: OwnerBacked(d, inodes, owner, v))
    && (forall n :: MarkOwned(d, owner, n))
  }

  ghost predicate MarkOwned(d: Disk, owner: Owners, n: int) {
    Bit(d, n) ==> DATABLOCK_OFFSET + n in owner
  }

  /** No two places, in one inode or in two, hold the same block. */
  lemma NoSharing(d: Disk, inodes: map<nat, Inode>, owner: Owners, id: nat, r: Ref, id': nat, r': Ref)
    requires Owned(d, inodes, owner) && id in inodes && id' in inodes && r.Ok() && r'.Ok()
    requires Val(d, inodes[id], r) == Val(d, inodes[id'], r') >= 0
    ensures id == id' && r == r' && Bit(d, Val(d, inodes[id], r) - DATABLOCK_OFFSET)
  {
    assert RefOwned(d, inodes, owner, id, r) && RefOwned(d, inodes, owner, id', r');
    assert OwnerBacked(d, inodes, owner, Val(d, inodes[id], r));
  }

  lemma OwnedAt(d: Disk, inodes: map<nat, Inode>, owner: Owners, id: nat, r: Ref)
    requires Owned(d, inodes, owner) && id in inodes && r.Ok() && Val(d, inodes[id], r) >= 0
    ensures var v := Val(d, inodes[id], r);
      v in owner && owner[v] == (id, r) && IsDataBlock(v) && v in d && ShapeOk(d[v], r.IsIndex())
        && Bit(d, v - DATABLOCK_OFFSET)
  {
    assert RefOwned(d, inodes, owner, id, r);
    assert OwnerBacked(d, inodes, owner, Val(d, inodes[id], r));
  }

  // ---- allocating ----

  /** d' is d with one free block taken and filled. */
  ghost predicate Allocated(d: Disk, d': Disk, b: int, fill: Content) {
    && IsDataBlock(b) && !Bit(d, b - DATABLOCK_OFFSET) && Geometry(d') && d'.Keys == d.Keys && d'[b] == fill
    && (forall x :: BlockKept(d, d', b, x))
    && (forall n :: BitAdded(d, d', b, n))
  }

  ghost predicate BlockKept(d: Disk, d': Disk, b: int, x: int) {
    x in d && x != b && !IsMapBlock(x) ==> x in d' && d'[x] == d[x]
  }

  ghost predicate BitAdded(d: Disk, d': Disk, b: int, n: int) {
    Bit(d', n) <==> Bit(d, n) || n == b - DATABLOCK_OFFSET
  }

  function WithBit(d: Disk, n: nat, v: bool): Disk
    requires Geometry(d) && n < BLOCK_COUNT
  {
    var m := BLOCK_MAP_OFFSET + n / MAP_BITS;
    assert IsMapBlock(m);
    d[m := Bits(d[m].bits[n % MAP_BITS := v])]
  }

  lemma WithBitBits(d: Disk, n: nat, v: bool, k: int)
    requires Geometry(d) && n < BLOCK_COUNT
    ensures Bit(WithBit(d, n, v), k) <==> if k == n then v else Bit(d, k)
  {
  }

  lemma MarkAllocates(d: Disk, n: nat)
    requires Geometry(d) && n < BLOCK_COUNT && !Bit(d, n)
    ensures Allocated(d, WithBit(d, n, true), DATABLOCK_OFFSET + n, d[DATABLOCK_OFFSET + n])
  {
    var d' := WithBit(d, n, true);
    assert IsMapBlock(BLOCK_MAP_OFFSET + n / MAP_BITS);
    assert IsDataBlock(DATABLOCK_OFFSET + n);
    var b := DATABLOCK_OFFSET + n;
    forall k ensures BitAdded(d, d', b, k) { WithBitBits(d, n, true, k); }
  }

  lemma ClearUnmarks(d: Disk, n: nat)
    requires Geometry(d) && n < BLOCK_COUNT
    ensures Unmarked(d, WithBit(d, n, false), DATABLOCK_OFFSET + n)
  {
    var d' := WithBit(d, n, false);
    assert IsMapBlock(BLOCK_MAP_OFFSET + n / MAP_BITS);
    var b := DATABLOCK_OFFSET + n;
    forall k ensures BitRemoved(d, d', b, k) { WithBitBits(d, n, false, k); }
  }

  /** Setting a clear bit in its map block takes the block it stands for. */
  lemma MarkIn(d: Disk, bblock: nat, k: nat)
    requires Geometry(d) && bblock % MAP_BITS == 0 && k < MAP_BITS && bblock + k < BLOCK_COUNT
    requires var m := BLOCK_MAP_OFFSET + bblock / MAP_BITS; IsMapBlock(m) ==> !d[m].bits[k]
    ensures var m := BLOCK_MAP_OFFSET + bblock / MAP_BITS;
      var b := DATABLOCK_OFFSET + bblock + k;
      IsMapBlock(m) && IsDataBlock(b) && Allocated(d, d[m := Bits(d[m].bits[k := true])], b, d[b])
  {
    var m := BLOCK_MAP_OFFSET + bblock / MAP_BITS;
    assert (bblock + k) / MAP_BITS == bblock / MAP_BITS && (bblock + k) % MAP_BITS == k;
    assert IsMapBlock(m);
    assert d[m := Bits(d[m].bits[k := true])] == WithBit(d, bblock + k, true);
    MarkAllocates(d, bblock + k);
  }

  lemma MapBlockFull(d: Disk, bblock: nat, len: nat)
    requires Geometry(d) && bblock < BLOCK_COUNT && bblock % MAP_BITS == 0
    requires IsMapBlock(BLOCK_MAP_OFFSET + bblock / MAP_BITS) && len <= MAP_BITS
    requires var bits := d[BLOCK_MAP_OFFSET + bblock / MAP_BITS].bits; forall k :: 0 <= k < len ==> bits[k]
    ensures forall n :: bblock <= n < bblock + len && n < BLOCK_COUNT ==> Bit(d, n)
  {
    forall n | bblock <= n < bblock + len && n < BLOCK_COUNT ensures Bit(d, n) {
      assert n / MAP_BITS == bblock / MAP_BITS && n % MAP_BITS == n - bblock;
    }
  }

  lemma AllocatedFilled(d: Disk, d1: Disk, b: int, fill: Content)
    requires Geometry(d) && IsDataBlock(b) && Allocated(d, d1, b, d[b])
    ensures Allocated(d, d1[b := fill], b, fill)
  {
    var d2 := d1[b := fill];
    forall n ensures BitAdded(d, d2, b, n) { assert BitAdded(d, d1, b, n); }
    forall x ensures BlockKept(d, d2, b, x) { assert BlockKept(d, d1, b, x); }
  }

  /** Changes outside the owned index blocks do not move any file's blocks. */
  lemma ValKept(d: Disk, d': Disk, inodes: map<nat, Inode>, owner: Owners, id: nat, r: Ref)
    requires Owned(d, inodes, owner) && id in inodes && r.Ok()
    requires forall v :: v in owner && owner[v].1.IsIndex() ==> v in d && v in d' && d'[v] == d[v]
    ensures Val(d', inodes[id], r) == Val(d, inodes[id], r)
  {
    var ino := inodes[id];
    if r.IndEntry? && ino.indirect >= 0 { OwnedAt(d, inodes, owner, id, Ind); }
    if (r.Mid? || r.Leaf?) && ino.doubleIndirect >= 0 {
      OwnedAt(d, inodes, owner, id, Dbl);
      if r.Leaf? && Val(d, ino, Mid(r.i)) >= 0 { OwnedAt(d, inodes, owner, id, Mid(r.i)); }
    }
  }

  lemma FreshUnowned(d: Disk, d': Disk, inodes: map<nat, Inode>, owner: Owners, b: int, fill: Content)
    requires Owned(d, inodes, owner) && Allocated(d, d', b, fill)
    ensures b !in owner && forall v :: v in owner ==> v in d && v in d' && d'[v] == d[v] && v != b
  {
    assert OwnerBacked(d, inodes, owner, b);
    forall v | v in owner ensures v in d && v in d' && d'[v] == d[v] && v != b {
      assert OwnerBacked(d, inodes, owner, v) && BlockKept(d, d', b, v);
    }
  }

  /** What storing block b at place (id, r) does to every stored number. */
  ghost predicate OnlyStored(d: Disk, inodes: map<nat, Inode>, d': Disk, inodes': map<nat, Inode>,
                             id: nat, r: Ref, b: int)
  {
    && inodes'.Keys == inodes.Keys
    && forall id', r': Ref :: id' in inodes && r'.Ok() ==>
         Val(d', inodes'[id'], r') == if id' == id && r' == r then b else Val(d, inodes[id'], r')
  }

  /** Taking a free block and storing it at an empty place keeps the ownership invariant. */
  lemma StoredOwned(d: Disk, d1: Disk, d': Disk, inodes: map<nat, Inode>, inodes': map<nat, Inode>,
                    owner: Owners, id: nat, r: Ref, b: int)
    requires Owned(d, inodes, owner) && id in inodes && r.Ok() && Val(d, inodes[id], r) < 0
    requires Allocated(d, d1, b, if r.IsIndex() then EMPTY_INDEX else ZERO_DATA)
    requires OnlyStored(d, inodes, d', inodes', id, r, b)
    requires forall id' :: id' in inodes ==> |inodes'[id'].direct| == NUM_DIRECT_BLOCKS
    requires d'.Keys == d1.Keys && d'[b] == d1[b]
    requires forall x :: x in d1 && (IsMapBlock(x) || !d1[x].Index?) ==> d'[x] == d1[x]
    requires forall x :: x in d1 && d1[x].Index? ==> d'[x].Index? && |d'[x].entries| == |d1[x].entries|
    ensures Owned(d', inodes', owner[b := (id, r)])
  {
    var owner' := owner[b := (id, r)];
    FreshUnowned(d, d1, inodes, owner, b, if r.IsIndex() then EMPTY_INDEX else ZERO_DATA);
    forall id', r': Ref ensures RefOwned(d', inodes', owner', id', r') {
      assert RefOwned(d, inodes, owner, id', r');
    }
    forall v ensures OwnerBacked(d', inodes', owner', v) {
      assert OwnerBacked(d, inodes, owner, v) && BitAdded(d, d1, b, v - DATABLOCK_OFFSET);
    }
    forall n ensures MarkOwned(d', owner', n) {
      assert BitAdded(d, d1, b, n) && MarkOwned(d, owner, n);
    }
  }

  /** Holes read as zero before and after a zeroed block fills one, so no file's bytes change. */
  lemma StoredBytes(d: Disk, d1: Disk, d': Disk, inodes: map<nat, Inode>, inodes': map<nat, Inode>,
                    owner: Owners, id: nat, r: Ref, b: int, id': nat, pos: nat)
    requires Owned(d, inodes, owner) && id in inodes && id' in inodes && pos < UINT32
    requires Val(d, inodes[id], r) < 0
    requires Allocated(d, d1, b, if r.IsIndex() then EMPTY_INDEX else ZERO_DATA)
    requires OnlyStored(d, inodes, d', inodes', id, r, b)
    requires d'.Keys == d1.Keys && d'[b] == d1[b]
    requires forall x :: x in d1 && (IsMapBlock(x) || !d1[x].Index?) ==> d'[x] == d1[x]
    ensures FileByte(d', inodes'[id'], pos) == FileByte(d, inodes[id'], pos)
  {
    OffsetsInRange(pos);
    var q := RefOf(pos / BLOCK_SIZE);
    if Val(d, inodes[id'], q) >= 0 {
      OwnedAt(d, inodes, owner, id', q);
      FreshUnowned(d, d1, inodes, owner, b, if r.IsIndex() then EMPTY_INDEX else ZERO_DATA);
    }
  }

  function Put(ino: Inode, r: Ref, b: int): Inode {
    match r
    case Direct(i) => if i < |ino.direct| then ino.(direct := ino.direct[i := b]) else ino
    case Ind => ino.(indirect := b)
    case Dbl => ino.(doubleIndirect := b)
    case _ => ino
  }

  lemma PutStores(d: Disk, d1: Disk, inodes: map<nat, Inode>, owner: Owners, id: nat, r: Ref, b: int)
    requires Owned(d, inodes, owner) && id in inodes && r.Ok() && (r.Direct? || r.Ind? || r.Dbl?)
    requires Val(d, inodes[id], r) < 0
    requires Allocated(d, d1, b, if r.IsIndex() then EMPTY_INDEX else ZERO_DATA)
    ensures OnlyStored(d, inodes, d1, inodes[id := Put(inodes[id], r, b)], id, r, b)
  {
    FreshUnowned(d, d1, inodes, owner, b, if r.IsIndex() then EMPTY_INDEX else ZERO_DATA);
    forall id', r': Ref | id' in inodes && r'.Ok()
      ensures Val(d1, inodes[id := Put(inodes[id], r, b)][id'], r') ==
              if id' == id && r' == r then b else Val(d, inodes[id'], r')
    {
      ValKept(d, d1, inodes, owner, id', r');
    }
  }

  /** The i-th entry of the index block stored at p. */
  function Child(p: Ref, i: nat): Ref {
    match p
    case Ind => IndEntry(i)
    case Dbl => Mid(i)
    case Mid(k) => Leaf(k, i)
    case _ => p
  }

  function SetEntry(d: Disk, p: int, i: nat, b: int): Disk
    requires p in d && d[p].Index? && i < |d[p].entries|
  {
    d[p := Index(d[p].entries[i := b])]
  }

  lemma SetEntryStores(d: Disk, d1: Disk, inodes: map<nat, Inode>, owner: Owners, id: nat, p: Ref, i: nat, b: int)
    requires Owned(d, inodes, owner) && id in inodes && p.Ok() && p.IsIndex() && i < NUM_INDIRECT_BLOCKS
    requires Val(d, inodes[id], p) >= 0 && Val(d, inodes[id], Child(p, i)) < 0
    requires Allocated(d, d1, b, if Child(p, i).IsIndex() then EMPTY_INDEX else ZERO_DATA)
    ensures var v := Val(d, inodes[id], p);
      && v in d1 && d1[v].Index? && i < |d1[v].entries| && v != b
      && OnlyStored(d, inodes, SetEntry(d1, v, i, b), inodes, id, Child(p, i), b)
  {
    var v := Val(d, inodes[id], p);
    var r := Child(p, i);
    FreshUnowned(d, d1, inodes, owner, b, if r.IsIndex() then EMPTY_INDEX else ZERO_DATA);
    OwnedAt(d, inodes, owner, id, p);
    var d2 := SetEntry(d1, v, i, b);
    forall id', r': Ref | id' in inodes && r'.Ok()
      ensures Val(d2, inodes[id'], r') == if id' == id && r' == r then b else Val(d, inodes[id'], r')
    {
      EntryStored(d, d1, inodes, owner, id, p, i, b, id', r');
    }
  }

  lemma EntryStored(d: Disk, d1: Disk, inodes: map<nat, Inode>, owner: Owners, id: nat, p: Ref, i: nat, b: int,
                    id': nat, r': Ref)
    requires Owned(d, inodes, owner) && id in inodes && p.Ok() && p.IsIndex() && i < NUM_INDIRECT_BLOCKS
    requires Val(d, inodes[id], p) >= 0 && Val(d, inodes[id], Child(p, i)) < 0
    requires Allocated(d, d1, b, if Child(p, i).IsIndex() then EMPTY_INDEX else ZERO_DATA)
    requires id' in inodes && r'.Ok()
    requires var v := Val(d, inodes[id], p); v in d1 && d1[v].Index? && i < |d1[v].entries| && v != b
    requires d1[Val(d, inodes[id], p)] == d[Val(d, inodes[id], p)]
    ensures Val(SetEntry(d1, Val(d, inodes[id], p), i, b), inodes[id'], r') ==
            if id' == id && r' == Child(p, i) then b else Val(d, inodes[id'], r')
  {
    FreshUnowned(d, d1, inodes, owner, b, if Child(p, i).IsIndex() then EMPTY_INDEX else ZERO_DATA);
    var v := Val(d, inodes[id], p);
    var ino := inodes[id'];
    if r'.IndEntry? && ino.indirect >= 0 {
      OwnedAt(d, inodes, owner, id', Ind);
      if ino.indirect == v { NoSharing(d, inodes, owner, id, p, id', Ind); }
    }
    if (r'.Mid? || r'.Leaf?) && ino.doubleIndirect >= 0 {
      OwnedAt(d, inodes, owner, id', Dbl);
      if ino.doubleIndirect == v { NoSharing(d, inodes, owner, id, p, id', Dbl); }
      if r'.Leaf? && Val(d, ino, Mid(r'.i)) >= 0 {
        OwnedAt(d, inodes, owner, id', Mid(r'.i));
        if Val(d, ino, Mid(r'.i)) == v { NoSharing(d, inodes, owner, id, p, id', Mid(r'.i)); }
      }
    }
  }

  // ---- writing file bytes ----

  lemma WriteKeepsOwned(d: Disk, inodes: map<nat, Inode>, owner: Owners, id: nat, n: nat, bytes: seq<Byte>)
    requires Owned(d, inodes, owner) && id in inodes && n < MAX_FILE_BLOCKS && |bytes| == BLOCK_SIZE
    requires Val(d, inodes[id], RefOf(n)) >= 0
    ensures var d' := d[Val(d, inodes[id], RefOf(n)) := Data(bytes)];
      && Owned(d', inodes, owner)
      && forall id', r: Ref :: id' in inodes && r.Ok() ==> Val(d', inodes[id'], r) == Val(d, inodes[id'], r)
  {
    var v := Val(d, inodes[id], RefOf(n));
    OwnedAt(d, inodes, owner, id, RefOf(n));
    var d' := d[v := Data(bytes)];
    forall x | x in owner && owner[x].1.IsIndex() ensures x in d && x in d' && d'[x] == d[x] {
      assert OwnerBacked(d, inodes, owner, x);
    }
    forall id', r: Ref | id' in inodes && r.Ok() ensures Val(d', inodes[id'], r) == Val(d, inodes[id'], r) {
      ValKept(d, d', inodes, owner, id', r);
    }
    forall id', r: Ref ensures RefOwned(d', inodes, owner, id', r) {
      assert RefOwned(d, inodes, owner, id', r);
    }
    forall x ensures OwnerBacked(d', inodes, owner, x) {
      assert OwnerBacked(d, inodes, owner, x);
    }
    forall k ensures MarkOwned(d', owner, k) { assert MarkOwned(d, owner, k); }
  }

  /** Overwriting one block changes that block's positions of that file and nothing else. */
  lemma WriteBytes(d: Disk, inodes: map<nat, Inode>, owner: Owners, id: nat, n: nat, bytes: seq<Byte>,
                   id': nat, pos: nat)
    requires Owned(d, inodes, owner) && id in inodes && n < MAX_FILE_BLOCKS && |bytes| == BLOCK_SIZE
    requires Val(d, inodes[id], RefOf(n)) >= 0 && id' in inodes && pos < UINT32
    ensures FileByte(d[Val(d, inodes[id], RefOf(n)) := Data(bytes)], inodes[id'], pos) ==
            if id' == id && pos / BLOCK_SIZE == n then bytes[pos % BLOCK_SIZE] else FileByte(d, inodes[id'], pos)
  {
    WriteKeepsOwned(d, inodes, owner, id, n, bytes);
    OffsetsInRange(pos);
    var q := RefOf(pos / BLOCK_SIZE);
    if Val(d, inodes[id'], q) == Val(d, inodes[id], RefOf(n)) {
      NoSharing(d, inodes, owner, id, RefOf(n), id', q);
      RefOfInjective(pos / BLOCK_SIZE, n);
    }
  }

  // ---- freeing ----

  /** d' is d with block b's mark cleared. */
  ghost predicate Unmarked(d: Disk, d': Disk, b: int) {
    && Geometry(d') && d'.Keys == d.Keys
    && (forall x :: BlockKept(d, d', -1, x))
    && (forall n :: BitRemoved(d, d', b, n))
  }

  ghost predicate BitRemoved(d: Disk, d': Disk, b: int, n: int) {
    Bit(d', n) <==> Bit(d, n) && n != b - DATABLOCK_OFFSET
  }

  /** Part-way through deleting inode id: some of its blocks, and only its blocks, are unmarked. */
  ghost predicate Deleting(d0: Disk, d: Disk, inodes: map<nat, Inode>, owner0: Owners, owner: Owners, id: nat) {
    && Owned(d0, inodes, owner0) && id in inodes && Geometry(d) && d.Keys == d0.Keys
    && (forall x :: BlockKept(d0, d, -1, x))
    && (forall n :: MarkOwned(d, owner, n))
    && (forall v :: v in owner ==> v in owner0 && owner[v] == owner0[v] && Bit(d, v - DATABLOCK_OFFSET))
    && (forall v :: v in owner0 && owner0[v].0 != id ==> v in owner)
  }

  lemma DeleteStep(d0: Disk, d: Disk, d': Disk, inodes: map<nat, Inode>, owner0: Owners, owner: Owners, id: nat, b: int)
    requires Deleting(d0, d, inodes, owner0, owner, id) && b in owner && owner[b].0 == id && Unmarked(d, d', b)
    ensures Deleting(d0, d', inodes, owner0, owner - {b}, id)
  {
    var owner' := owner - {b};
    forall x ensures BlockKept(d0, d', -1, x) { assert BlockKept(d0, d, -1, x) && BlockKept(d, d', -1, x); }
    forall n ensures MarkOwned(d', owner', n) { assert MarkOwned(d, owner, n) && BitRemoved(d, d', b, n); }
    forall v | v in owner' ensures Bit(d', v - DATABLOCK_OFFSET) { assert BitRemoved(d, d', b, v - DATABLOCK_OFFSET); }
  }

  /** When none of the inode's blocks is left, the others are owned exactly as before. */
  lemma DeleteDone(d0: Disk, d: Disk, inodes: map<nat, Inode>, owner0: Owners, owner: Owners, id: nat)
    requires Deleting(d0, d, inodes, owner0, owner, id)
    requires forall r: Ref :: r.Ok() && Val(d0, inodes[id], r) >= 0 ==> Val(d0, inodes[id], r) !in owner
    ensures Owned(d, inodes - {id}, owner)
    ensures forall id', pos :: id' in inodes && id' != id && 0 <= pos < UINT32 ==>
              FileByte(d, inodes[id'], pos) == FileByte(d0, inodes[id'], pos)
  {
    forall v | v in owner0 ensures v in d0 && v in d && d[v] == d0[v] {
      assert OwnerBacked(d0, inodes, owner0, v) && BlockKept(d0, d, -1, v);
    }
    forall id', r: Ref | id' in inodes && r.Ok() ensures Val(d, inodes[id'], r) == Val(d0, inodes[id'], r) {
      ValKept(d0, d, inodes, owner0, id', r);
    }
    forall id', r: Ref ensures RefOwned(d, inodes - {id}, owner, id', r) {
      assert RefOwned(d0, inodes, owner0, id', r);
    }
    forall v ensures OwnerBacked(d, inodes - {id}, owner, v) {
      assert OwnerBacked(d0, inodes, owner0, v);
    }
    forall id', pos | id' in inodes && id' != id && 0 <= pos < UINT32
      ensures FileByte(d, inodes[id'], pos) == FileByte(d0, inodes[id'], pos)
    {
      OffsetsInRange(pos);
      var q := RefOf(pos / BLOCK_SIZE);
      if Val(d0, inodes[id'], q) >= 0 { OwnedAt(d0, inodes, owner0, id', q); }
    }
  }

  // ---- files seen as bytes ----

  ghost predicate SameByte(d: Disk, inodes: map<nat, Inode>, d': Disk, inodes': map<nat, Inode>, id: nat, pos: int) {
    id in inodes && id in inodes' && 0 <= pos < UINT32 ==>
      FileByte(d', inodes'[id], pos) == FileByte(d, inodes[id], pos)
  }

  /** Every file has the same size and the same bytes, inside and past its end. */
  ghost predicate SameFiles(d: Disk, inodes: map<nat, Inode>, d': Disk, inodes': map<nat, Inode>) {
    && inodes'.Keys == inodes.Keys
    && (forall id :: id in inodes ==> inodes'[id].size == inodes[id].size)
    && (forall id, pos :: SameByte(d, inodes, d', inodes', id, pos))
  }

  lemma SameFilesTrans(d: Disk, m: map<nat, Inode>, d': Disk, m': map<nat, Inode>, d'': Disk, m'': map<nat, Inode>)
    requires SameFiles(d, m, d', m') && SameFiles(d', m', d'', m'')
    ensures SameFiles(d, m, d'', m'')
  {
    forall id, pos ensures SameByte(d, m, d'', m'', id, pos) {
      assert SameByte(d, m, d', m', id, pos) && SameByte(d', m', d'', m'', id, pos);
    }
  }

  /** Filling an empty place of the inode itself. */
  lemma PutKeepsFiles(d: Disk, d1: Disk, inodes: map<nat, Inode>, owner: Owners, id: nat, r: Ref, b: int)
    requires Owned(d, inodes, owner) && id in inodes && r.Ok() && (r.Direct? || r.Ind? || r.Dbl?)
    requires Val(d, inodes[id], r) < 0
    requires Allocated(d, d1, b, if r.IsIndex() then EMPTY_INDEX else ZERO_DATA)
    ensures var inodes' := inodes[id := Put(inodes[id], r, b)];
      && b !in owner && Val(d1, inodes'[id], r) == b
      && Owned(d1, inodes', owner[b := (id, r)]) && SameFiles(d, inodes, d1, inodes')
  {
    var inodes' := inodes[id := Put(inodes[id], r, b)];
    FreshUnowned(d, d1, inodes, owner, b, if r.IsIndex() then EMPTY_INDEX else ZERO_DATA);
    PutStores(d, d1, inodes, owner, id, r, b);
    StoredOwned(d, d1, d1, inodes, inodes', owner, id, r, b);
    forall id', pos ensures SameByte(d, inodes, d1, inodes', id', pos) {
      if id' in inodes && 0 <= pos < UINT32 {
        StoredBytes(d, d1, d1, inodes, inodes', owner, id, r, b, id', pos);
      }
    }
  }

  /** Filling an empty entry of one of the inode's index blocks. */
  lemma SetEntryKeepsFiles(d: Disk, d1: Disk, inodes: map<nat, Inode>, owner: Owners, id: nat, p: Ref, i: nat, b: int)
    requires Owned(d, inodes, owner) && id in inodes && p.Ok() && p.IsIndex() && i < NUM_INDIRECT_BLOCKS
    requires Val(d, inodes[id], p) >= 0 && Val(d, inodes[id], Child(p, i)) < 0
    requires Allocated(d, d1, b, if Child(p, i).IsIndex() then EMPTY_INDEX else ZERO_DATA)
    ensures var v := Val(d, inodes[id], p);
      && b !in owner && v in d && v in d1 && d1[v] == d[v] && d1[v].Index? && |d1[v].entries| == NUM_INDIRECT_BLOCKS
      && var d' := SetEntry(d1, v, i, b);
      && Val(d', inodes[id], Child(p, i)) == b && Val(d', inodes[id], p) == v
      && Owned(d', inodes, owner[b := (id, Child(p, i))]) && SameFiles(d, inodes, d', inodes)
  {
    var v, r := Val(d, inodes[id], p), Child(p, i);
    FreshUnowned(d, d1, inodes, owner, b, if r.IsIndex() then EMPTY_INDEX else ZERO_DATA);
    OwnedAt(d, inodes, owner, id, p);
    SetEntryStores(d, d1, inodes, owner, id, p, i, b);
    var d' := SetEntry(d1, v, i, b);
    StoredOwned(d, d1, d', inodes, inodes, owner, id, r, b);
    forall id', pos ensures SameByte(d, inodes, d', inodes, id', pos) {
      if id' in inodes && 0 <= pos < UINT32 {
        StoredBytes(d, d1, d', inodes, inodes, owner, id, r, b, id', pos);
      }
    }
  }

  lemma BlockPos(offset: nat, k: nat)
    requires offset % BLOCK_SIZE + k < BLOCK_SIZE
    ensures (offset + k) / BLOCK_SIZE == offset / BLOCK_SIZE
    ensures (offset + k) % BLOCK_SIZE == offset % BLOCK_SIZE + k
  {
  }

  function FileSlice(d: Disk, ino: Inode, offset: nat, len: nat): seq<Byte> {
    seq<Byte>(len, k requires 0 <= k < len => FileByte(d, ino, offset + k))
  }

  lemma SliceOfContents(d: Disk, ino: Inode, offset: nat, len: nat)
    requires offset + len <= ino.size
    ensures FileSlice(d, ino, offset, len) == Contents(d, ino)[offset..offset + len]
  {
  }

  /** The clipped slice that a read copies out. */
  lemma ReadSpecIsSlice(d: Disk, ino: Inode, offset: nat, length: nat, clipped: nat, got: nat)
    requires offset <= ino.size && offset + length < UINT32 && got <= clipped
    requires clipped == if offset + length > ino.size then ino.size - offset else length
    ensures var whole := ReadSpec(Contents(d, ino), offset, length);
      |whole| == clipped && FileSlice(d, ino, offset, got) <= whole
  {
    var c := Contents(d, ino);
    SliceOfContents(d, ino, offset, clipped);
    SliceExtends(d, ino, offset, got, clipped - got);
    assert ReadSpec(c, offset, length) == c[offset..offset + clipped] by {
      ReadSpecClips(c, offset, length);
    }
  }

  lemma ReadSpecClips(c: seq<Byte>, offset: nat, length: nat)
    requires offset <= |c| && offset + length < UINT32
    ensures ReadSpec(c, offset, length) == c[offset..(if offset + length > |c| then |c| else offset + length)]
  {
  }

  lemma SliceExtends(d: Disk, ino: Inode, offset: nat, len: nat, more: nat)
    ensures FileSlice(d, ino, offset, len + more) ==
      FileSlice(d, ino, offset, len) + FileSlice(d, ino, offset + len, more)
  {
  }

  /** A chunk of a mapped block is the file's bytes at those positions. */
  lemma ChunkIsFile(d: Disk, inodes: map<nat, Inode>, owner: Owners, id: nat, offset: nat, v: int, chunk: nat)
    requires Owned(d, inodes, owner) && id in inodes && offset < UINT32
    requires v == Val(d, inodes[id], RefOf(offset / BLOCK_SIZE)) >= 0
    requires offset % BLOCK_SIZE + chunk <= BLOCK_SIZE
    ensures v in d && d[v].Data? && |d[v].bytes| == BLOCK_SIZE
    ensures d[v].bytes[offset % BLOCK_SIZE..offset % BLOCK_SIZE + chunk] == FileSlice(d, inodes[id], offset, chunk)
  {
    OffsetsInRange(offset);
    OwnedAt(d, inodes, owner, id, RefOf(offset / BLOCK_SIZE));
    var part := d[v].bytes[offset % BLOCK_SIZE..offset % BLOCK_SIZE + chunk];
    forall k | 0 <= k < chunk ensures part[k] == FileByte(d, inodes[id], offset + k) {
      BlockPos(offset, k);
    }
  }

  /** What a read returns when blocks remain: the requested slice, clipped to the file. */
  function ReadSpec(c: seq<Byte>, offset: nat, length: nat): seq<Byte> {
    if offset > |c| || offset + length >= UINT32 then []
    else if offset + length > |c| then c[offset..]
    else c[offset..offset + length]
  }

  /** The bytes a read returns: as many as were asked for and are there, none on overflow. */
  lemma ReadSpecMeans(c: seq<Byte>, offset: nat, length: nat)
    ensures var r := ReadSpec(c, offset, length);
      && |r| == (if offset + length < 0x1_0000_0000 then Max(0, Min(length, |c| - offset)) else 0)
      && forall i :: 0 <= i < |r| ==> r[i] == c[offset + i]
  {
  }

  /** A file after writing bytes at off: any gap past the old end is zero. */
  function Overlay(c: seq<Byte>, off: nat, bytes: seq<Byte>): seq<Byte> {
    var n := if off + |bytes| > |c| then off + |bytes| else |c|;
    seq(n, i requires 0 <= i < n =>
      if off <= i < off + |bytes| then bytes[i - off] else if i < |c| then c[i] else 0)
  }

  /** How far past off position pos comes when offsets wrap round at 32 bits. */
  function Hit(off: nat, pos: nat): nat
    requires off < UINT32
  {
    if pos >= off then pos - off else pos + UINT32 - off
  }

  /** The 32-bit offset a write of n bytes ends at. */
  function End(off: nat, n: nat): nat { (off + n) % UINT32 }

  /** A file after a write: the offset goes round at 32 bits, and the size grows to where it ends up. */
  function Written(f: File, off: nat, bytes: seq<Byte>): File
    requires off < UINT32
  {
    File(
      if End(off, |bytes|) > f.size then End(off, |bytes|) else f.size,
      seq(|f.img|, pos requires 0 <= pos < |f.img| =>
        if Hit(off, pos) < |bytes| then bytes[Hit(off, pos)] else f.img[pos]))
  }

  function EmptyFile(): File { File(0, seq(UINT32, _ => 0)) }

  lemma WrittenOk(f: File, off: nat, bytes: seq<Byte>)
    requires f.Ok() && off < UINT32
    ensures Written(f, off, bytes).Ok()
  {
  }

  lemma EndIs(off: nat, n: nat)
    requires off < UINT32 && n < UINT32
    ensures End(off, n) == if off + n < UINT32 then off + n else off + n - UINT32
  {
  }

  lemma EndTwice(off: nat, n: nat, more: nat)
    requires off < UINT32 && n + more < UINT32
    ensures End(End(off, n), more) == End(off, n + more)
  {
  }

  /** A write means overlaying the byte array, with zeros in any gap, exactly when it stays below the
      32-bit limit and the positions it leaps over hold zeros. */
  lemma OverlayIff(f: File, off: nat, bytes: seq<Byte>)
    requires f.Ok() && off < UINT32 && |bytes| < UINT32
    ensures Written(f, off, bytes).Bytes() == Overlay(f.Bytes(), off, bytes) <==>
            off + |bytes| < UINT32 && f.ZeroUpTo(off)
  {
    var w, o := Written(f, off, bytes), Overlay(f.Bytes(), off, bytes);
    EndIs(off, |bytes|);
    WrittenOk(f, off, bytes);
    assert |w.Bytes()| == w.size;
    if off + |bytes| < UINT32 {
      assert |o| == w.size;
      forall pos | 0 <= pos < w.size
        ensures w.Bytes()[pos] == o[pos] <==> f.size <= pos < off ==> f.img[pos] == 0
      {
        assert w.Bytes()[pos] == w.img[pos];
      }
      if f.ZeroUpTo(off) {
        assert w.Bytes() == o;
      } else {
        var pos :| f.size <= pos < off && f.img[pos] != 0;
        assert w.Bytes()[pos] != o[pos];
      }
    }
  }

  lemma BytesPut(files: map<nat, File>, id: nat, f: File)
    ensures BytesOf(files[id := f]) == BytesOf(files)[id := f.Bytes()]
  {
  }

  /** A write that starts inside the file, or at its end, and stays below the 32-bit limit. */
  lemma BytesWritten(files: map<nat, File>, id: nat, off: nat, bytes: seq<Byte>)
    requires id in files && files[id].Ok() && off + |bytes| < UINT32 && off <= files[id].size
    ensures BytesOf(files[id := Written(files[id], off, bytes)]) ==
            BytesOf(files)[id := Overlay(BytesOf(files)[id], off, bytes)]
  {
    OverlayIff(files[id], off, bytes);
    BytesPut(files, id, Written(files[id], off, bytes));
  }

  /** From a file with zeros past its end, a write leaves such a file exactly when it stays below the
      32-bit limit, or every byte it put past the old end before going round is zero. */
  lemma TailIff(f: File, off: nat, bytes: seq<Byte>)
    requires f.Ok() && f.ZeroUpTo(UINT32) && off < UINT32 && |bytes| < UINT32
    ensures Written(f, off, bytes).ZeroUpTo(UINT32) <==>
            off + |bytes| < UINT32 ||
            forall k :: 0 <= k < UINT32 - off && off + k >= f.size ==> bytes[k] == 0
  {
    var w := Written(f, off, bytes);
    EndIs(off, |bytes|);
    if off + |bytes| < UINT32 {
      forall pos | w.size <= pos < UINT32 ensures w.img[pos] == 0 {
        assert f.img[pos] == 0;
      }
    } else {
      forall k | 0 <= k < UINT32 - off ensures w.img[off + k] == bytes[k] {
        assert Hit(off, off + k) == k;
      }
      forall pos | w.size <= pos < UINT32 && pos < off ensures w.img[pos] == 0 {
        assert f.img[pos] == 0;
      }
      if w.ZeroUpTo(UINT32) {
        forall k | 0 <= k < UINT32 - off && off + k >= f.size ensures bytes[k] == 0 {
          assert w.img[off + k] == 0;
        }
      } else {
        var pos :| w.size <= pos < UINT32 && w.img[pos] != 0;
        assert bytes[pos - off] != 0;
      }
    }
  }

  /** What was written is read back, by a read of the same range, exactly when the write stayed below the
      32-bit limit; past it the read returns nothing. */
  lemma ReadBackIff(f: File, off: nat, bytes: seq<Byte>)
    requires f.Ok() && off < UINT32 && |bytes| < UINT32
    ensures ReadSpec(Written(f, off, bytes).Bytes(), off, |bytes|) == bytes <==> off + |bytes| < UINT32
  {
    EndIs(off, |bytes|);
    WrittenOk(f, off, bytes);
    if off + |bytes| < UINT32 {
      var w := Written(f, off, bytes);
      forall k | 0 <= k < |bytes| ensures w.Bytes()[off + k] == bytes[k] {
        assert Hit(off, off + k) == k;
      }
      assert w.Bytes()[off..off + |bytes|] == bytes;
    }
  }

  /** Three bytes written to an empty file two short of the limit: the file is the last of them alone. */
  lemma WriteGoesRound()
    ensures Written(EmptyFile(), 0xffff_fffe, [7, 8, 9]).Bytes() == [9]
    ensures !Written(EmptyFile(), 0xffff_fffe, [7, 8, 9]).ZeroUpTo(0x1_0000_0000)
  {
    var w := Written(EmptyFile(), 0xffff_fffe, [7, 8, 9]);
    assert w.img[UINT32 - 1] == 8;
  }

  /** Reading back what was just written returns it. */
  lemma ReadAfterWrite(c: seq<Byte>, off: nat, bytes: seq<Byte>)
    requires off + |bytes| < UINT32
    ensures ReadSpec(Overlay(c, off, bytes), off, |bytes|) == bytes
  {
    var o := Overlay(c, off, bytes);
    assert o[off..off + |bytes|] == bytes;
  }

  /** Positions outside the written range read as before, holes as zero. */
  lemma ReadElsewhere(c: seq<Byte>, off: nat, bytes: seq<Byte>, at: nat, len: nat)
    requires at + len <= off && at + len < UINT32
    ensures var r := ReadSpec(Overlay(c, off, bytes), at, len);
      |r| == len && forall k :: 0 <= k < len ==> r[k] == if at + k < |c| then c[at + k] else 0
  {
  }

  /** Position pos of file id' after the first bytes of a write to file id reached the disk. */
  ghost predicate WroteByte(d: Disk, inodes: map<nat, Inode>, d': Disk, inodes': map<nat, Inode>,
                            id: nat, off: nat, bytes: seq<Byte>, id': nat, pos: int)
    requires off < UINT32
  {
    id' in inodes && id' in inodes' && 0 <= pos < UINT32 ==>
      FileByte(d', inodes'[id'], pos) ==
        if id' == id && Hit(off, pos) < |bytes| then bytes[Hit(off, pos)] else FileByte(d, inodes[id'], pos)
  }

  ghost predicate Wrote(d: Disk, inodes: map<nat, Inode>, d': Disk, inodes': map<nat, Inode>,
                        id: nat, off: nat, bytes: seq<Byte>)
    requires off < UINT32
  {
    && inodes'.Keys == inodes.Keys
    && (forall id' :: id' in inodes ==> inodes'[id'].size == inodes[id'].size)
    && (forall id', pos :: WroteByte(d, inodes, d', inodes', id, off, bytes, id', pos))
  }

  /** One more chunk, at the offset the write has come round to: map the block, then overwrite part of it. */
  lemma WroteChunk(d: Disk, inodes: map<nat, Inode>, d1: Disk, inodes1: map<nat, Inode>,
                   d2: Disk, inodes2: map<nat, Inode>, owner2: Owners,
                   id: nat, off: nat, bytes: seq<Byte>, at: nat, chunk: seq<Byte>, block: seq<Byte>)
    requires off < UINT32 && |bytes| + |chunk| < UINT32 && at == End(off, |bytes|)
    requires Wrote(d, inodes, d1, inodes1, id, off, bytes) && SameFiles(d1, inodes1, d2, inodes2)
    requires Owned(d2, inodes2, owner2) && id in inodes && at % BLOCK_SIZE + |chunk| <= BLOCK_SIZE
    requires var v := Val(d2, inodes2[id], RefOf(at / BLOCK_SIZE));
      && v >= 0 && v in d2 && d2[v].Data? && |d2[v].bytes| == BLOCK_SIZE
      && block == Patched(d2[v].bytes, at % BLOCK_SIZE, chunk)
    ensures var v := Val(d2, inodes2[id], RefOf(at / BLOCK_SIZE));
      Wrote(d, inodes, d2[v := Data(block)], inodes2, id, off, bytes + chunk)
  {
    var n := at / BLOCK_SIZE;
    var v := Val(d2, inodes2[id], RefOf(n));
    var d3 := d2[v := Data(block)];
    var bytes' := bytes + chunk;
    EndIs(off, |bytes|);
    OffsetsInRange(at);
    forall id', pos ensures WroteByte(d, inodes, d3, inodes2, id, off, bytes', id', pos) {
      assert WroteByte(d, inodes, d1, inodes1, id, off, bytes, id', pos);
      assert SameByte(d1, inodes1, d2, inodes2, id', pos);
      if id' in inodes && 0 <= pos < UINT32 {
        WriteBytes(d2, inodes2, owner2, id, n, block, id', pos);
        InChunk(off, |bytes|, at, |chunk|, pos);
      }
    }
  }

  /** A chunk covers the positions of its block that the write had not yet come to. */
  lemma InChunk(off: nat, done: nat, at: nat, more: nat, pos: nat)
    requires off < UINT32 && done + more < UINT32 && at == End(off, done) && at % BLOCK_SIZE + more <= BLOCK_SIZE
    requires pos < UINT32
    ensures done <= Hit(off, pos) < done + more <==>
            pos / BLOCK_SIZE == at / BLOCK_SIZE && at % BLOCK_SIZE <= pos % BLOCK_SIZE < at % BLOCK_SIZE + more
    ensures done <= Hit(off, pos) < done + more ==> Hit(off, pos) - done == pos % BLOCK_SIZE - at % BLOCK_SIZE
  {
    EndIs(off, done);
    assert at + more <= UINT32;
    assert done <= Hit(off, pos) < done + more <==> at <= pos < at + more;
  }

  lemma WroteSame(d: Disk, inodes: map<nat, Inode>, d1: Disk, inodes1: map<nat, Inode>,
                  d2: Disk, inodes2: map<nat, Inode>, id: nat, off: nat, bytes: seq<Byte>)
    requires off < UINT32 && Wrote(d, inodes, d1, inodes1, id, off, bytes) && SameFiles(d1, inodes1, d2, inodes2)
    ensures Wrote(d, inodes, d2, inodes2, id, off, bytes)
  {
    forall id', pos ensures WroteByte(d, inodes, d2, inodes2, id, off, bytes, id', pos) {
      assert WroteByte(d, inodes, d1, inodes1, id, off, bytes, id', pos);
      assert SameByte(d1, inodes1, d2, inodes2, id', pos);
    }
  }

  lemma SameSlice(d: Disk, inodes: map<nat, Inode>, d': Disk, inodes': map<nat, Inode>, id: nat, offset: nat, len: nat)
    requires SameFiles(d, inodes, d', inodes') && id in inodes && offset + len <= UINT32
    ensures FileSlice(d', inodes'[id], offset, len) == FileSlice(d, inodes[id], offset, len)
  {
    var s, s' := FileSlice(d, inodes[id], offset, len), FileSlice(d', inodes'[id], offset, len);
    forall k | 0 <= k < len ensures s'[k] == s[k] {
      assert SameByte(d, inodes, d', inodes', id, offset + k);
    }
  }

  lemma SameFilesOf(d: Disk, inodes: map<nat, Inode>, d': Disk, inodes': map<nat, Inode>)
    requires SameFiles(d, inodes, d', inodes')
    ensures FilesOf(d', inodes') == FilesOf(d, inodes)
  {
    forall id | id in inodes ensures FileOf(d', inodes'[id]) == FileOf(d, inodes[id]) {
      forall pos | 0 <= pos < UINT32 ensures FileByte(d', inodes'[id], pos) == FileByte(d, inodes[id], pos) {
        assert SameByte(d, inodes, d', inodes', id, pos);
      }
      FileEqual(d, inodes[id], d', inodes'[id]);
    }
  }

  lemma SizeKeepsOwned(d: Disk, inodes: map<nat, Inode>, owner: Owners, id: nat, size: nat)
    requires Owned(d, inodes, owner) && id in inodes
    ensures Owned(d, inodes[id := inodes[id].(size := size)], owner)
  {
    var inodes' := inodes[id := inodes[id].(size := size)];
    assert forall r: Ref :: Val(d, inodes'[id], r) == Val(d, inodes[id], r);
    forall id', r: Ref ensures RefOwned(d, inodes', owner, id', r) { assert RefOwned(d, inodes, owner, id', r); }
    forall v ensures OwnerBacked(d, inodes', owner, v) { assert OwnerBacked(d, inodes, owner, v); }
  }

  lemma FileEqual(d: Disk, ino: Inode, d': Disk, ino': Inode)
    requires ino'.size == ino.size
    requires forall pos :: 0 <= pos < UINT32 ==> FileByte(d', ino', pos) == FileByte(d, ino, pos)
    ensures FileOf(d', ino') == FileOf(d, ino)
  {
  }

  lemma ContentsIsBytes(d: Disk, ino: Inode)
    requires ino.size < UINT32
    ensures FileOf(d, ino).Bytes() == Contents(d, ino)
  {
  }

  lemma ResizedFile(d: Disk, was: map<nat, Inode>, d': Disk, now: map<nat, Inode>, id: nat, off: nat,
                    bytes: seq<Byte>, size: nat)
    requires off < UINT32 && Wrote(d, was, d', now, id, off, bytes) && id in was
    requires size == if End(off, |bytes|) > was[id].size then End(off, |bytes|) else was[id].size
    ensures FileOf(d', now[id].(size := size)) == Written(FileOf(d, was[id]), off, bytes)
  {
    var ino := now[id].(size := size);
    var f, w := FileOf(d', ino), Written(FileOf(d, was[id]), off, bytes);
    forall pos | 0 <= pos < UINT32 ensures f.img[pos] == w.img[pos] {
      assert WroteByte(d, was, d', now, id, off, bytes, id, pos);
      assert FileByte(d', ino, pos) == FileByte(d', now[id], pos);
    }
  }

  /** After the chunks of a write have landed, setting the size makes the file the written one; the others
      are as they were. */
  lemma Resized(d: Disk, was: map<nat, Inode>, d': Disk, now: map<nat, Inode>, id: nat, off: nat, bytes: seq<Byte>,
                size: nat)
    requires off < UINT32 && Wrote(d, was, d', now, id, off, bytes) && id in was
    requires size == if End(off, |bytes|) > was[id].size then End(off, |bytes|) else was[id].size
    ensures FilesOf(d', now[id := now[id].(size := size)]) ==
            FilesOf(d, was)[id := Written(FileOf(d, was[id]), off, bytes)]
  {
    ResizedFile(d, was, d', now, id, off, bytes, size);
    forall id' | id' in was && id' != id ensures FileOf(d', now[id']) == FileOf(d, was[id']) {
      forall pos | 0 <= pos < UINT32 ensures FileByte(d', now[id'], pos) == FileByte(d, was[id'], pos) {
        assert WroteByte(d, was, d', now, id, off, bytes, id', pos);
      }
      FileEqual(d, was[id'], d', now[id']);
    }
  }

  /** How far a deletion has come: direct slots, entries of the indirect block, that block, second-level
      blocks of the double index, entries of the current one, and the root. */
  datatype Progress = Progress(direct: nat, entry: nat, ind: bool, mid: nat, leaf: nat, dbl: bool)

  const DONE := Progress(NUM_DIRECT_BLOCKS, NUM_INDIRECT_BLOCKS, true, NUM_INDIRECT_BLOCKS, 0, true)

  /** The deletion has not reached place r. */
  predicate Ahead(pr: Progress, r: Ref) {
    match r
    case Direct(i) => i >= pr.direct
    case Ind => !pr.ind
    case IndEntry(i) => i >= pr.entry
    case Dbl => !pr.dbl
    case Mid(i) => i >= pr.mid
    case Leaf(i, j) => i > pr.mid || (i == pr.mid && j >= pr.leaf)
  }

  ghost predicate LeftAt(d0: Disk, ino: Inode, owner: Owners, pr: Progress, r: Ref) {
    r.Ok() && Val(d0, ino, r) >= 0 ==> (Val(d0, ino, r) in owner <==> Ahead(pr, r))
  }

  /** Of the inode's blocks, exactly those ahead of the deletion are still owned. */
  ghost predicate Remaining(d0: Disk, ino: Inode, owner: Owners, pr: Progress) {
    forall r: Ref :: LeftAt(d0, ino, owner, pr, r)
  }

  lemma NoneRemaining(d0: Disk, ino: Inode, owner: Owners)
    requires Remaining(d0, ino, owner, DONE)
    ensures forall r: Ref :: r.Ok() && Val(d0, ino, r) >= 0 ==> Val(d0, ino, r) !in owner
  {
    forall r: Ref | r.Ok() && Val(d0, ino, r) >= 0 ensures Val(d0, ino, r) !in owner {
      assert LeftAt(d0, ino, owner, DONE, r);
    }
  }

  ghost predicate Step1(pr: Progress, pr': Progress, r: Ref, r': Ref) {
    r'.Ok() ==> (Ahead(pr', r') <==> Ahead(pr, r') && r' != r)
  }

  /** From pr to pr' the deletion passes exactly place r. */
  ghost predicate Passes(pr: Progress, pr': Progress, r: Ref) {
    Ahead(pr, r) && forall r': Ref :: Step1(pr, pr', r, r')
  }

  lemma LeftAfterFree(d0: Disk, inodes: map<nat, Inode>, owner0: Owners, owner: Owners, id: nat, r: Ref,
                      pr: Progress, pr': Progress)
    requires Owned(d0, inodes, owner0) && id in inodes && r.Ok() && Val(d0, inodes[id], r) >= 0 && Passes(pr, pr', r)
    requires Remaining(d0, inodes[id], owner, pr)
    ensures Remaining(d0, inodes[id], owner - {Val(d0, inodes[id], r)}, pr')
  {
    var b := Val(d0, inodes[id], r);
    var owner' := owner - {b};
    forall r': Ref ensures LeftAt(d0, inodes[id], owner', pr', r') {
      assert LeftAt(d0, inodes[id], owner, pr, r') && Step1(pr, pr', r, r');
      if r'.Ok() && Val(d0, inodes[id], r') == b { NoSharing(d0, inodes, owner0, id, r, id, r'); }
    }
  }

  lemma LeftAfterSkip(d0: Disk, ino: Inode, owner: Owners, r: Ref, pr: Progress, pr': Progress)
    requires Val(d0, ino, r) < 0 && Passes(pr, pr', r)
    requires Remaining(d0, ino, owner, pr)
    ensures Remaining(d0, ino, owner, pr')
  {
    forall r': Ref ensures LeftAt(d0, ino, owner, pr', r') {
      assert LeftAt(d0, ino, owner, pr, r') && Step1(pr, pr', r, r');
    }
  }

  /** Progress pr with the entries below i of the index block at p passed. */
  function At(pr: Progress, p: Ref, i: nat): Progress {
    if p.Ind? then pr.(entry := i) else pr.(leaf := i)
  }

  function AtMid(i: nat): Progress { Progress(NUM_DIRECT_BLOCKS, NUM_INDIRECT_BLOCKS, true, i, 0, false) }

  /** Index blocks of the inode being deleted are read as they were when the deletion began. */
  lemma IndexIntact(d0: Disk, d: Disk, inodes: map<nat, Inode>, owner0: Owners, owner: Owners, id: nat, p: Ref)
    requires Deleting(d0, d, inodes, owner0, owner, id) && p.Ok() && p.IsIndex() && Val(d0, inodes[id], p) >= 0
    ensures var num := Val(d0, inodes[id], p);
      num in d0 && num in d && d[num] == d0[num] && d[num].Index? && |d[num].entries| == NUM_INDIRECT_BLOCKS
  {
    OwnedAt(d0, inodes, owner0, id, p);
    assert BlockKept(d0, d, -1, Val(d0, inodes[id], p));
  }

  lemma EntryPasses(d0: Disk, inodes: map<nat, Inode>, owner0: Owners, id: nat, pr: Progress, p: Ref, i: nat)
    requires Owned(d0, inodes, owner0) && id in inodes && p.Ok() && (p.Ind? || p.Mid?) && i < NUM_INDIRECT_BLOCKS
    requires Val(d0, inodes[id], p) >= 0 && (p.Mid? ==> pr.mid == p.i)
    ensures Passes(At(pr, p, i), At(pr, p, i + 1), Child(p, i)) && Child(p, i).Ok()
    ensures Val(d0, inodes[id], Child(p, i)) == Entry(d0, Val(d0, inodes[id], p), i)
  {
  }

  lemma NothingIndirect(d0: Disk, ino: Inode, owner: Owners)
    requires ino.indirect < 0
    requires Remaining(d0, ino, owner, Progress(NUM_DIRECT_BLOCKS, 0, false, 0, 0, false))
    ensures Remaining(d0, ino, owner, AtMid(0))
  {
    var pr, pr' := Progress(NUM_DIRECT_BLOCKS, 0, false, 0, 0, false), AtMid(0);
    forall r: Ref ensures LeftAt(d0, ino, owner, pr', r) { assert LeftAt(d0, ino, owner, pr, r); }
  }

  lemma NothingDouble(d0: Disk, ino: Inode, owner: Owners)
    requires ino.doubleIndirect < 0
    requires Remaining(d0, ino, owner, AtMid(0))
    ensures Remaining(d0, ino, owner, DONE)
  {
    forall r: Ref ensures LeftAt(d0, ino, owner, DONE, r) { assert LeftAt(d0, ino, owner, AtMid(0), r); }
  }

  lemma NothingBelow(d0: Disk, ino: Inode, owner: Owners, i: nat)
    requires Val(d0, ino, Mid(i)) < 0
    requires Remaining(d0, ino, owner, AtMid(i))
    ensures Remaining(d0, ino, owner, AtMid(i + 1))
  {
    var pr' := AtMid(i + 1);
    forall r: Ref ensures LeftAt(d0, ino, owner, pr', r) { assert LeftAt(d0, ino, owner, AtMid(i), r); }
  }

  lemma DeleteStart(d: Disk, inodes: map<nat, Inode>, owner: Owners, id: nat)
    requires Owned(d, inodes, owner) && id in inodes
    ensures Deleting(d, d, inodes, owner, owner, id)
    ensures Remaining(d, inodes[id], owner, Progress(0, 0, false, 0, 0, false))
  {
    forall v | v in owner ensures Bit(d, v - DATABLOCK_OFFSET) { assert OwnerBacked(d, inodes, owner, v); }
    var pr := Progress(0, 0, false, 0, 0, false);
    forall r: Ref ensures LeftAt(d, inodes[id], owner, pr, r) {
      assert RefOwned(d, inodes, owner, id, r);
    }
  }

  /** What is left after a delete: exactly the other inodes' blocks. */
  lemma DeleteLeaves(d0: Disk, inodes: map<nat, Inode>, d: Disk, id: nat, owner0: Owners, owner: Owners)
    requires Deleting(d0, d, inodes, owner0, owner, id)
    requires forall r: Ref :: r.Ok() && Val(d0, inodes[id], r) >= 0 ==> Val(d0, inodes[id], r) !in owner
    ensures forall v :: v in owner <==> v in owner0 && owner0[v].0 != id
    ensures |owner| == |owner0| - |set v | v in owner0 && owner0[v].0 == id|
  {
    forall v ensures v in owner <==> v in owner0 && owner0[v].0 != id {
      assert OwnerBacked(d0, inodes, owner0, v);
    }
    KeysRemoved(owner0, owner, id);
  }

  lemma KeysRemoved(owner0: Owners, owner: Owners, id: nat)
    requires forall v :: v in owner <==> v in owner0 && owner0[v].0 != id
    ensures |owner| == |owner0| - |set v | v in owner0 && owner0[v].0 == id|
  {
    var gone := set v | v in owner0 && owner0[v].0 == id;
    forall v ensures v in owner.Keys <==> v in owner0.Keys - gone {
      assert v in owner.Keys <==> v in owner;
    }
    assert owner.Keys == owner0.Keys - gone && gone <= owner0.Keys;
    assert |owner.Keys| == |owner0.Keys| - |gone|;
  }

  lemma DeleteFiles(d0: Disk, inodes: map<nat, Inode>, d: Disk, id: nat)
    requires forall id', pos :: id' in inodes && id' != id && 0 <= pos < UINT32 ==>
               FileByte(d, inodes[id'], pos) == FileByte(d0, inodes[id'], pos)
    ensures FilesOf(d, inodes - {id}) == FilesOf(d0, inodes) - {id}
  {
    forall id' | id' in inodes && id' != id ensures FileOf(d, inodes[id']) == FileOf(d0, inodes[id']) {
      FileEqual(d0, inodes[id'], d, inodes[id']);
    }
  }

  lemma CreateKeepsOwned(d: Disk, inodes: map<nat, Inode>, owner: Owners, id: nat, ino: Inode)
    requires Owned(d, inodes, owner) && id !in inodes && |ino.direct| == NUM_DIRECT_BLOCKS
    requires ino.indirect < 0 && ino.doubleIndirect < 0 && forall i :: 0 <= i < |ino.direct| ==> ino.direct[i] < 0
    ensures Owned(d, inodes[id := ino], owner)
    ensures forall pos :: 0 <= pos ==> FileByte(d, ino, pos) == 0
  {
    var inodes' := inodes[id := ino];
    assert forall r: Ref :: Val(d, ino, r) < 0;
    forall id', r: Ref ensures RefOwned(d, inodes', owner, id', r) { assert RefOwned(d, inodes, owner, id', r); }
    forall v ensures OwnerBacked(d, inodes', owner, v) { assert OwnerBacked(d, inodes, owner, v); }
  }

  // ---- how many blocks an operation needs ----

  /** The places on the way to the n-th block of a file: index blocks first, the block itself last. */
  function PathTo(n: nat): seq<Ref> {
    match RefOf(n)
    case Direct(i) => [Direct(i)]
    case IndEntry(i) => [Ind, IndEntry(i)]
    case Leaf(i, j) => [Dbl, Mid(i), Leaf(i, j)]
    case _ => []
  }

  /** A block of a file costs one to three blocks. */
  lemma PathLength(n: nat)
    ensures |PathTo(n)| == if n < 10 then 1 else if n < 1034 then 2 else 3
  {
  }

  /** Place r of inode id holds a block. */
  ghost predicate Has(owner: Owners, id: nat, r: Ref) { exists v :: v in owner && owner[v] == (id, r) }

  /** How many places of the path hold no block. */
  ghost function Missing(owner: Owners, id: nat, path: seq<Ref>): nat {
    if path == [] then 0 else (if Has(owner, id, path[0]) then 0 else 1) + Missing(owner, id, path[1..])
  }

  lemma HasIff(d: Disk, inodes: map<nat, Inode>, owner: Owners, id: nat, r: Ref)
    requires Owned(d, inodes, owner) && id in inodes && r.Ok()
    ensures Has(owner, id, r) <==> Val(d, inodes[id], r) >= 0
  {
    assert RefOwned(d, inodes, owner, id, r);
    if Has(owner, id, r) {
      var v :| v in owner && owner[v] == (id, r);
      assert OwnerBacked(d, inodes, owner, v);
    }
  }

  /** Nothing owned is lost, and what is new belongs to inode id. */
  ghost predicate Grew(owner: Owners, owner': Owners, id: nat) {
    && (forall v :: v in owner ==> v in owner' && owner'[v] == owner[v])
    && (forall v :: v in owner' && v !in owner ==> owner'[v].0 == id)
  }

  lemma GrewHas(owner: Owners, owner': Owners, id: nat, id': nat, r: Ref)
    requires Grew(owner, owner', id)
    ensures Has(owner, id', r) ==> Has(owner', id', r)
    ensures id' != id ==> (Has(owner', id', r) <==> Has(owner, id', r))
    ensures |owner| <= |owner'| && (|owner| == |owner'| ==> owner' == owner)
  {
    if Has(owner, id', r) {
      var v :| v in owner && owner[v] == (id', r);
      assert v in owner' && owner'[v] == (id', r);
    }
    GrewSize(owner, owner', id);
  }

  lemma GrewSize(owner: Owners, owner': Owners, id: nat)
    requires Grew(owner, owner', id)
    ensures |owner| <= |owner'| && (|owner| == |owner'| ==> owner' == owner)
  {
    forall v | v in owner.Keys ensures v in owner'.Keys { assert v in owner; }
    SubsetCard(owner.Keys, owner'.Keys);
    if |owner| == |owner'| {
      assert owner.Keys == owner'.Keys;
      assert forall v :: v in owner' ==> v in owner && owner'[v] == owner[v];
    }
  }

  lemma SubsetCard(a: set<int>, b: set<int>)
    requires a <= b
    ensures |a| <= |b| && (|a| == |b| ==> a == b)
  {
    assert b == a + (b - a);
  }

  /** Making sure place r holds a block: nothing to do, one block more, or no block to be had. */
  ghost predicate FilledOne(owner: Owners, owner': Owners, id: nat, r: Ref, ok: bool) {
    if Has(owner, id, r) then ok && owner' == owner
    else if ok then exists v :: v !in owner && owner' == owner[v := (id, r)]
    else owner' == owner
  }

  /** Making sure every place of a path holds a block: just the missing ones were taken, or they ran out. */
  ghost predicate FilledPath(owner: Owners, owner': Owners, id: nat, path: seq<Ref>, ok: bool) {
    && Grew(owner, owner', id)
    && if ok then |owner'| == |owner| + Missing(owner, id, path) && Missing(owner', id, path) == 0
       else |owner'| < |owner| + Missing(owner, id, path)
  }

  lemma OnePath(owner: Owners, owner': Owners, id: nat, r: Ref, ok: bool)
    requires FilledOne(owner, owner', id, r, ok)
    ensures FilledPath(owner, owner', id, [r], ok)
    ensures forall r' :: r' != r ==> (Has(owner', id, r') <==> Has(owner, id, r'))
  {
    if !Has(owner, id, r) && ok {
      var v :| v !in owner && owner' == owner[v := (id, r)];
      assert owner' - {v} == owner;
      assert v in owner' && owner'[v] == (id, r);
      forall r' | r' != r ensures Has(owner', id, r') <==> Has(owner, id, r') {
        if Has(owner', id, r') {
          var u :| u in owner' && owner'[u] == (id, r');
          assert u in owner && owner[u] == (id, r');
        }
        GrewHas(owner, owner', id, id, r');
      }
    }
    assert [r][1..] == [];
  }

  lemma {:induction false} MissingSame(owner: Owners, owner': Owners, id: nat, path: seq<Ref>)
    requires forall i :: 0 <= i < |path| ==> (Has(owner', id, path[i]) <==> Has(owner, id, path[i]))
    ensures Missing(owner', id, path) == Missing(owner, id, path)
  {
    if path != [] { MissingSame(owner, owner', id, path[1..]); }
  }

  lemma {:induction false} MissingNone(owner: Owners, id: nat, path: seq<Ref>)
    ensures Missing(owner, id, path) == 0 <==> forall i :: 0 <= i < |path| ==> Has(owner, id, path[i])
  {
    if path != [] { MissingNone(owner, id, path[1..]); }
  }

  lemma MissingBound(owner: Owners, id: nat, path: seq<Ref>)
    ensures Missing(owner, id, path) <= |path|
  {
  }

  lemma MissingCons(owner: Owners, id: nat, r: Ref, path: seq<Ref>)
    ensures Missing(owner, id, [r] + path) == (if Has(owner, id, r) then 0 else 1) + Missing(owner, id, path)
  {
    assert ([r] + path)[1..] == path;
  }

  /** One place, then the rest of the path. */
  lemma PathThen(o0: Owners, o1: Owners, o2: Owners, id: nat, r: Ref, path: seq<Ref>, ok: bool)
    requires FilledOne(o0, o1, id, r, true) && FilledPath(o1, o2, id, path, ok) && r !in path
    ensures FilledPath(o0, o2, id, [r] + path, ok)
  {
    OnePath(o0, o1, id, r, true);
    MissingSame(o0, o1, id, path);
    MissingCons(o0, id, r, path);
    MissingCons(o2, id, r, path);
    assert [r][1..] == [];
    MissingNone(o1, id, [r]);
    assert Has(o1, id, [r][0]);
    GrewHas(o1, o2, id, id, r);
  }

  lemma PathStops(o0: Owners, o1: Owners, id: nat, r: Ref, path: seq<Ref>)
    requires FilledOne(o0, o1, id, r, false)
    ensures FilledPath(o0, o1, id, [r] + path, false)
  {
    MissingCons(o0, id, r, path);
  }

  /** A path with nothing missing needs nothing. */
  lemma FullPath(owner: Owners, owner': Owners, id: nat, path: seq<Ref>, ok: bool)
    requires FilledPath(owner, owner', id, path, ok) && Missing(owner, id, path) == 0
    ensures ok && owner' == owner
  {
    GrewSize(owner, owner', id);
  }

  lemma GrewTrans(o0: Owners, o1: Owners, o2: Owners, id: nat)
    requires Grew(o0, o1, id) && Grew(o1, o2, id)
    ensures Grew(o0, o2, id)
  {
    forall v | v in o2 && v !in o0 ensures o2[v].0 == id {
      if v in o1 { assert o1[v].0 == id; }
    }
  }

  /** Other inodes' places are as before, and no place of id loses its block. */
  lemma GrewMissing(owner: Owners, owner': Owners, id: nat, id': nat, path: seq<Ref>)
    requires Grew(owner, owner', id)
    ensures Missing(owner, id', path) == 0 ==> Missing(owner', id', path) == 0
    ensures id' != id ==> Missing(owner', id', path) == Missing(owner, id', path)
  {
    forall i | 0 <= i < |path|
      ensures Has(owner, id', path[i]) ==> Has(owner', id', path[i])
      ensures id' != id ==> (Has(owner', id', path[i]) <==> Has(owner, id', path[i]))
    {
      GrewHas(owner, owner', id, id', path[i]);
    }
    MissingNone(owner, id', path);
    MissingNone(owner', id', path);
    if id' != id { MissingSame(owner, owner', id', path); }
  }

  /** Forgetting the blocks of one inode leaves the others' places as they are. */
  lemma DroppedMissing(owner: Owners, owner': Owners, id: nat, id': nat, path: seq<Ref>)
    requires id' != id && (forall v :: v in owner' <==> v in owner && owner[v].0 != id)
    requires forall v :: v in owner' ==> owner'[v] == owner[v]
    ensures Missing(owner', id', path) == Missing(owner, id', path)
  {
    forall i | 0 <= i < |path| ensures Has(owner', id', path[i]) <==> Has(owner, id', path[i]) {
      if Has(owner, id', path[i]) {
        var v :| v in owner && owner[v] == (id', path[i]);
        assert v in owner' && owner'[v] == (id', path[i]);
      }
    }
    MissingSame(owner, owner', id', path);
  }

  /** The first byte of a file without blocks needs one. */
  lemma FirstBlock(d: Disk, inodes: map<nat, Inode>, owner: Owners, id: nat)
    requires Owned(d, inodes, owner) && id !in inodes
    ensures Missing(owner, id, PathTo(0)) == 1
  {
    forall v | v in owner ensures owner[v].0 != id { assert OwnerBacked(d, inodes, owner, v); }
    assert !Has(owner, id, Direct(0));
    assert PathTo(0) == [Direct(0)] && [Direct(0)][1..] == [];
  }

  /** A file whose first n blocks are all there owns at least n blocks. */
  lemma {:induction false} MappedBound(owner: Owners, id: nat, n: nat) returns (s: set<int>)
    requires forall m :: 0 <= m < n ==> Missing(owner, id, PathTo(m)) == 0
    ensures s <= owner.Keys && |s| == n && |owner| >= n
    ensures forall v :: v in s ==> exists m :: 0 <= m < n && owner[v] == (id, RefOf(m))
  {
    s := {};
    if n > 0 {
      var s0 := MappedBound(owner, id, n - 1);
      var path := PathTo(n - 1);
      MissingNone(owner, id, path);
      assert path != [] && path[|path| - 1] == RefOf(n - 1);
      var v :| v in owner && owner[v] == (id, RefOf(n - 1));
      forall m: nat | m < n - 1 ensures RefOf(m) != RefOf(n - 1) {}
      s := s0 + {v};
    }
    SubsetCard(s, owner.Keys);
  }

  /** A request that stays inside one block. */
  predicate OneBlock(offset: nat, length: nat) { offset % BLOCK_SIZE + length <= BLOCK_SIZE }

  // ---- a full disk ----

  function Range(lo: int, n: nat): (s: set<int>)
    ensures |s| == n && forall v :: v in s <==> lo <= v < lo + n
  {
    if n == 0 then {} else Range(lo, n - 1) + {lo + n - 1}
  }

  /** When every bit is set, as many blocks are owned as the disk has. */
  lemma AllMarkedCount(d: Disk, inodes: map<nat, Inode>, owner: Owners)
    requires Owned(d, inodes, owner) && forall n :: InUse(d, n)
    ensures |owner| == BLOCK_COUNT
  {
    var all := Range(DATABLOCK_OFFSET, BLOCK_COUNT);
    forall v ensures v in owner <==> v in all {
      assert OwnerBacked(d, inodes, owner, v);
      if v in all { assert InUse(d, v - DATABLOCK_OFFSET) && MarkOwned(d, owner, v - DATABLOCK_OFFSET); }
    }
    assert owner.Keys == all;
  }

  lemma OwnerBound(d: Disk, inodes: map<nat, Inode>, owner: Owners)
    requires Owned(d, inodes, owner)
    ensures |owner| <= BLOCK_COUNT
  {
    var all := Range(DATABLOCK_OFFSET, BLOCK_COUNT);
    forall v | v in owner.Keys ensures v in all { assert OwnerBacked(d, inodes, owner, v); }
    SubsetCard(owner.Keys, all);
  }
}
