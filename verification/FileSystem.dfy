/** Block allocation and the inode operations, running over the buffer cache. */
module FileSystem {
  import opened Common
  import opened BlockCache
  import opened FsModel

  /** How much of the current block is left, or of the request if that is less. */
  function ChunkSize(offset: nat, left: nat): (n: nat)
    ensures left > 0 ==> 0 < n <= left
    ensures offset % BLOCK_SIZE + n <= BLOCK_SIZE
  {
    if BLOCK_SIZE - offset % BLOCK_SIZE < left then BLOCK_SIZE - offset % BLOCK_SIZE else left
  }

  /** The 32-bit sum of an offset and a length comes out below the offset. */
  function SumWraps(offset: nat, length: nat): (wraps: bool)
    requires offset < UINT32 && length < UINT32
    ensures wraps <==> offset + length >= UINT32
  {
    (offset + length) % UINT32 < offset
  }

  datatype Op =
    | OpCreate(id: nat)
    | OpDelete(id: nat)
    | OpRead(id: nat, off: nat, len: nat)
    | OpWrite(id: nat, off: nat, src: seq<Byte>)
  {
    /** Offsets and lengths are 32-bit. */
    predicate InRange() {
      match this
      case OpRead(_, off, len) => off < UINT32 && len < UINT32
      case OpWrite(_, off, src) => off < UINT32 && |src| < UINT32
      case _ => true
    }

    /** A write does not run past the 32-bit offsets. */
    predicate Inside() { OpWrite? ==> off + |src| < UINT32 }
  }

  datatype Out = Out(bytes: seq<Byte>, total: nat)

  /** What an operation that read `bytes` or wrote `total` bytes does to the files. */
  predicate FileStep(v: map<nat, File>, op: Op, out: Out, v': map<nat, File>)
    requires op.InRange()
  {
    match op
    case OpCreate(id) => v' == if id in v then v else v[id := EmptyFile()]
    case OpDelete(id) => v' == v - {id}
    case OpRead(id, off, len) => v' == v && (id in v ==> out.bytes <= ReadSpec(v[id].Bytes(), off, len))
    case OpWrite(id, off, src) =>
      if id in v then out.total <= |src| && v' == v[id := Written(v[id], off, src[..out.total])] else v' == v
  }

  /** The same, on files that are plain byte arrays. */
  predicate ArrayStep(v: map<nat, seq<Byte>>, op: Op, out: Out, v': map<nat, seq<Byte>>) {
    match op
    case OpCreate(id) => v' == if id in v then v else v[id := []]
    case OpDelete(id) => v' == v - {id}
    case OpRead(id, off, len) => v' == v && (id in v ==> out.bytes <= ReadSpec(v[id], off, len))
    case OpWrite(id, off, src) =>
      if id in v then out.total <= |src| && v' == v[id := Overlay(v[id], off, src[..out.total])] else v' == v
  }

  /** Every file holds zeros past its end. */
  ghost predicate AllZeroPast(v: map<nat, File>) {
    forall id :: id in v ==> v[id].Ok() && v[id].ZeroUpTo(UINT32)
  }

  /** Until a write runs past the 32-bit offsets, files with zeros past their ends are byte arrays. */
  lemma StepIsArray(v: map<nat, File>, op: Op, out: Out, v': map<nat, File>)
    requires op.InRange() && op.Inside() && FileStep(v, op, out, v') && AllZeroPast(v)
    ensures AllZeroPast(v') && ArrayStep(BytesOf(v), op, out, BytesOf(v'))
  {
    if op.OpWrite? && op.id in v {
      var f, bytes := v[op.id], op.src[..out.total];
      OverlayIff(f, op.off, bytes);
      TailIff(f, op.off, bytes);
      WrittenOk(f, op.off, bytes);
      assert BytesOf(v') == BytesOf(v)[op.id := Overlay(f.Bytes(), op.off, bytes)];
    } else if op.OpCreate? && op.id !in v {
      assert EmptyFile().Bytes() == [];
      assert BytesOf(v') == BytesOf(v)[op.id := []];
    } else if op.OpDelete? {
      assert BytesOf(v') == BytesOf(v) - {op.id};
    }
  }

  /** Over any run whose writes stay below the 32-bit limit, the files are byte arrays throughout. */
  lemma {:induction false} RunIsArrays(ops: seq<Op>, outs: seq<Out>, vs: seq<map<nat, File>>, n: nat)
    requires n <= |ops| == |outs| && |vs| == |ops| + 1 && AllZeroPast(vs[0])
    requires forall i :: 0 <= i < |ops| ==> ops[i].InRange() && FileStep(vs[i], ops[i], outs[i], vs[i + 1])
    requires forall i :: 0 <= i < |ops| ==> ops[i].Inside()
    ensures AllZeroPast(vs[n])
    ensures forall i :: 0 <= i < n ==> ArrayStep(BytesOf(vs[i]), ops[i], outs[i], BytesOf(vs[i + 1]))
  {
    if n > 0 {
      RunIsArrays(ops, outs, vs, n - 1);
      StepIsArray(vs[n - 1], ops[n - 1], outs[n - 1], vs[n]);
    }
  }

  /** The operation was not cut short. */
  predicate Complete(v: map<nat, File>, op: Op, out: Out) {
    match op
    case OpRead(id, off, len) => id in v ==> out.bytes == ReadSpec(v[id].Bytes(), off, len)
    case OpWrite(id, off, src) => id in v ==> out.total == |src|
    case _ => true
  }

  class Fs {
    const cache: Cache
    var usedBlock: int
    var inodes: map<nat, Inode>
    ghost var owner: Owners

    /** Every block is owned by the one place that stores it, and the used count is the number of owned
        blocks. */
    ghost predicate Valid()
      reads this, cache, cache.slots
    {
      && cache.Valid() && Owned(cache.flat, inodes, owner) && usedBlock == |owner|
      && forall id :: id in inodes ==> inodes[id].size < UINT32
    }

    /** A freshly made file system: cleared bitmap, no inodes. */
    constructor (disk: Disk)
      requires Geometry(disk) && forall n :: !Bit(disk, n)
      ensures Valid() && inodes == map[] && usedBlock == 0 && cache.pins == map[] && fresh(cache) && fresh(cache.slots)
    {
      cache := new Cache(disk);
      usedBlock := 0;
      inodes := map[];
      owner := map[];
    }

    /** Finds the first clear bit, sets it and returns that block; -1 when every bit is set. */
    method BlockAlloc() returns (b: int)
      requires cache.Valid() && Geometry(cache.flat) && |cache.pins| < BLOCK_CONCURRENCY
      modifies this`usedBlock, cache, cache.slots
      ensures cache.Valid() && cache.pins == old(cache.pins) && cache.KeepsHandles()
      ensures b < 0 ==> cache.flat == old(cache.flat) && usedBlock == old(usedBlock)
      ensures b < 0 ==> DiskFull()
      ensures b >= 0 ==> usedBlock == old(usedBlock) + 1 && IsDataBlock(b)
      ensures b >= 0 ==> Allocated(old(cache.flat), cache.flat, b, old(cache.flat)[b])
    {
      var bblock := 0;
      while bblock < BLOCK_COUNT
        invariant 0 <= bblock && bblock % MAP_BITS == 0
        invariant cache.Valid() && cache.pins == old(cache.pins) && cache.KeepsHandles()
        invariant cache.flat == old(cache.flat) && usedBlock == old(usedBlock)
        invariant forall n :: 0 <= n < bblock && n < BLOCK_COUNT ==> Bit(cache.flat, n)
      {
        b := ScanMapBlock(bblock);
        if b >= 0 {
          return;
        }
        bblock := bblock + MAP_BITS;
      }
      b := -1;
      forall n ensures InUse(cache.flat, n) {}
    }

    /** Looks for a clear bit in the one map block that starts at bit bblock. */
    method ScanMapBlock(bblock: nat) returns (b: int)
      requires cache.Valid() && Geometry(cache.flat) && |cache.pins| < BLOCK_CONCURRENCY
      requires bblock < BLOCK_COUNT && bblock % MAP_BITS == 0
      modifies this`usedBlock, cache, cache.slots
      ensures cache.Valid() && cache.pins == old(cache.pins) && cache.KeepsHandles()
      ensures b < 0 ==> cache.flat == old(cache.flat) && usedBlock == old(usedBlock)
      ensures b < 0 ==> forall n :: bblock <= n < bblock + MAP_BITS && n < BLOCK_COUNT ==> Bit(cache.flat, n)
      ensures b >= 0 ==> usedBlock == old(usedBlock) + 1 && IsDataBlock(b)
      ensures b >= 0 ==> Allocated(old(cache.flat), cache.flat, b, old(cache.flat)[b])
    {
      var num := BLOCK_MAP_OFFSET + bblock / MAP_BITS;
      assert IsMapBlock(num);
      ghost var d := cache.flat;
      cache.OpenThenClose(num);
      var blk := cache.Open(num);
      cache.HandleView(blk, num);
      var bits := cache.slots[blk].data.bits;
      var boffset := FirstClear(bits, BLOCK_COUNT - bblock);
      if boffset < MAP_BITS && bblock + boffset < BLOCK_COUNT {
        b := DATABLOCK_OFFSET + bblock + boffset;
        ghost var d' := d[num := Bits(bits[boffset := true])];
        assert Allocated(d, d', b, d[b]) by { MarkIn(d, bblock, boffset); }
        cache.Update(blk, Bits(bits[boffset := true]), num);
        cache.Close(blk, num);
        usedBlock := usedBlock + 1;
        assert cache.flat == d';
      } else {
        cache.Close(blk, num);
        MapBlockFull(d, bblock, boffset);
        b := -1;
      }
    }

    /** First clear bit below the limit, or where the scan ended. */
    method FirstClear(bits: seq<bool>, limit: nat) returns (k: nat)
      requires |bits| == MAP_BITS
      ensures k <= MAP_BITS && k <= limit && (forall j :: 0 <= j < k ==> bits[j])
      ensures k < MAP_BITS && k < limit ==> !bits[k]
    {
      k := 0;
      while k < MAP_BITS && k < limit && bits[k]
        invariant k <= MAP_BITS && k <= limit && forall j :: 0 <= j < k ==> bits[j]
      {
        k := k + 1;
      }
    }

    method BlockMemset(b: int, fill: Content)
      requires cache.Valid() && b in cache.flat && |cache.pins| < BLOCK_CONCURRENCY
      modifies cache, cache.slots
      ensures cache.Valid() && cache.pins == old(cache.pins) && cache.KeepsHandles()
      ensures cache.flat == old(cache.flat)[b := fill]
    {
      cache.OpenThenClose(b);
      var blk := cache.Open(b);
      cache.Update(blk, fill, b);
      cache.Close(blk, b);
    }

    method BlockAllocSet(fill: Content) returns (b: int)
      requires cache.Valid() && Geometry(cache.flat) && |cache.pins| < BLOCK_CONCURRENCY
      modifies this`usedBlock, cache, cache.slots
      ensures cache.Valid() && cache.pins == old(cache.pins) && cache.KeepsHandles()
      ensures b < 0 ==> cache.flat == old(cache.flat) && usedBlock == old(usedBlock)
      ensures b < 0 ==> DiskFull()
      ensures b >= 0 ==> usedBlock == old(usedBlock) + 1 && Allocated(old(cache.flat), cache.flat, b, fill)
    {
      b := BlockAlloc();
      if b >= 0 {
        AllocatedFilled(old(cache.flat), cache.flat, b, fill);
        BlockMemset(b, fill);
      }
    }

    /** Clears a block's bit; the block must be a marked data block. */
    method BlockFree(b: int)
      requires cache.Valid() && Geometry(cache.flat) && |cache.pins| < BLOCK_CONCURRENCY
      requires b >= DATABLOCK_OFFSET && Bit(cache.flat, b - DATABLOCK_OFFSET)
      modifies this`usedBlock, cache, cache.slots
      ensures cache.Valid() && cache.pins == old(cache.pins) && cache.KeepsHandles()
      ensures usedBlock == old(usedBlock) - 1 && Unmarked(old(cache.flat), cache.flat, b)
    {
      var n := b - DATABLOCK_OFFSET;
      var num := BLOCK_MAP_OFFSET + n / MAP_BITS;
      assert IsMapBlock(num);
      ghost var d := cache.flat;
      ClearUnmarks(d, n);
      cache.OpenThenClose(num);
      var blk := cache.Open(num);
      cache.HandleView(blk, num);
      var bits := cache.slots[blk].data.bits;
      cache.Update(blk, Bits(bits[n % MAP_BITS := false]), num);
      cache.Close(blk, num);
      usedBlock := usedBlock - 1;
      assert cache.flat == WithBit(d, n, false);
    }

    // ---- block index ----

    ghost predicate Sound()
      reads this, cache, cache.slots
    {
      cache.Valid() && Owned(cache.flat, inodes, owner) && usedBlock == |owner|
    }

    /** What every allocation step promises: the invariant, the open blocks and all files' bytes are kept,
        and it fails only when no block is free. */
    twostate predicate Kept()
      reads this, cache, cache.slots
    {
      && Sound() && cache.pins == old(cache.pins) && cache.KeepsHandles()
      && SameFiles(old(cache.flat), old(inodes), cache.flat, inodes)
    }

    ghost predicate DiskFull()
      reads this, cache
    {
      forall n :: InUse(cache.flat, n)
    }

    /** Makes sure a place in the inode itself holds a block. */
    method FillInode(id: nat, r: Ref) returns (v: int)
      requires Sound() && id in inodes && r.Ok() && (r.Direct? || r.Ind? || r.Dbl?)
      requires |cache.pins| < BLOCK_CONCURRENCY
      modifies this, cache, cache.slots
      ensures Kept()
      ensures v < 0 ==> DiskFull()
      ensures v >= 0 ==> Val(cache.flat, inodes[id], r) == v
      ensures FilledOne(old(owner), owner, id, r, v >= 0)
    {
      ghost var d := cache.flat;
      HasIff(d, inodes, owner, id, r);
      var ino := inodes[id];
      v := match r case Direct(i) => ino.direct[i] case Ind => ino.indirect case _ => ino.doubleIndirect;
      if v >= 0 {
        return;
      }
      v := BlockAllocSet(if r.IsIndex() then EMPTY_INDEX else ZERO_DATA);
      if v >= 0 {
        FreshUnowned(d, cache.flat, inodes, owner, v, if r.IsIndex() then EMPTY_INDEX else ZERO_DATA);
        PutKeepsFiles(d, cache.flat, inodes, owner, id, r, v);
        inodes := inodes[id := Put(ino, r, v)];
        owner := owner[v := (id, r)];
      }
    }

    /** Makes sure entry i of an open index block holds a block. */
    method FillEntry(id: nat, ghost p: Ref, i: nat, blk: nat, index: bool, ghost num: int) returns (v: int)
      requires Sound() && id in inodes && p.Ok() && p.IsIndex() && i < NUM_INDIRECT_BLOCKS
      requires index == Child(p, i).IsIndex()
      requires num == Val(cache.flat, inodes[id], p) >= 0 && cache.Handle(blk, num)
      requires |cache.pins| < BLOCK_CONCURRENCY
      modifies this, cache, cache.slots
      ensures Kept() && inodes == old(inodes)
      ensures v < 0 ==> DiskFull()
      ensures v >= 0 ==> Val(cache.flat, inodes[id], Child(p, i)) == v
      ensures Val(cache.flat, inodes[id], p) == num
      ensures FilledOne(old(owner), owner, id, Child(p, i), v >= 0)
    {
      ghost var d := cache.flat;
      HasIff(d, inodes, owner, id, Child(p, i));
      cache.HandleView(blk, num);
      OwnedAt(d, inodes, owner, id, p);
      v := cache.slots[blk].data.entries[i];
      if v >= 0 {
        return;
      }
      v := BlockAllocSet(if index then EMPTY_INDEX else ZERO_DATA);
      if v >= 0 {
        ghost var d1 := cache.flat;
        FreshUnowned(d, d1, inodes, owner, v, if index then EMPTY_INDEX else ZERO_DATA);
        SetEntryKeepsFiles(d, d1, inodes, owner, id, p, i, v);
        cache.HandleView(blk, num);
        var entries := cache.slots[blk].data.entries;
        cache.Update(blk, Index(entries[i := v]), num);
        owner := owner[v := (id, Child(p, i))];
        assert cache.flat == SetEntry(d1, num, i, v);
      }
    }

    /** The block holding the n-th block of the file, allocated (zeroed) together with any index block
        that is missing; negative only when the disk is full. At most three buffers are open at once. */
    method MapBlock(id: nat, n: nat) returns (v: int)
      requires Sound() && id in inodes && n < MAX_FILE_BLOCKS && |cache.pins| + 3 <= BLOCK_CONCURRENCY
      modifies this, cache, cache.slots
      ensures Kept()
      ensures v < 0 ==> DiskFull()
      ensures v >= 0 ==> Val(cache.flat, inodes[id], RefOf(n)) == v
      ensures FilledPath(old(owner), owner, id, PathTo(n), v >= 0)
    {
      if n < NUM_DIRECT_BLOCKS {
        v := FillInode(id, Direct(n));
        OnePath(old(owner), owner, id, Direct(n), v >= 0);
        return;
      }
      var k := n - NUM_DIRECT_BLOCKS;
      if k < NUM_INDIRECT_BLOCKS {
        v := MapIndirect(id, k);
        return;
      }
      k := k - NUM_INDIRECT_BLOCKS;
      assert k < NUM_INDIRECT_BLOCKS * NUM_INDIRECT_BLOCKS;
      v := MapDouble(id, k / NUM_INDIRECT_BLOCKS, k % NUM_INDIRECT_BLOCKS);
    }

    method MapIndirect(id: nat, k: nat) returns (v: int)
      requires Sound() && id in inodes && k < NUM_INDIRECT_BLOCKS && |cache.pins| + 2 <= BLOCK_CONCURRENCY
      modifies this, cache, cache.slots
      ensures Kept()
      ensures v < 0 ==> DiskFull()
      ensures v >= 0 ==> Val(cache.flat, inodes[id], IndEntry(k)) == v
      ensures FilledPath(old(owner), owner, id, [Ind, IndEntry(k)], v >= 0)
    {
      var ind := FillInode(id, Ind);
      assert [Ind] + [IndEntry(k)] == [Ind, IndEntry(k)];
      if ind < 0 {
        PathStops(old(owner), owner, id, Ind, [IndEntry(k)]);
        v := -1;
        return;
      }
      ghost var d1, inodes1, owner1 := cache.flat, inodes, owner;
      v := FillIn(id, Ind, k, ind);
      OnePath(owner1, owner, id, IndEntry(k), v >= 0);
      PathThen(old(owner), owner1, owner, id, Ind, [IndEntry(k)], v >= 0);
      SameFilesTrans(old(cache.flat), old(inodes), d1, inodes1, cache.flat, inodes);
    }

    /** Opens an index block of data blocks and makes sure its entry i holds one. */
    method FillIn(id: nat, ghost p: Ref, i: nat, num: int) returns (v: int)
      requires Sound() && id in inodes && p.Ok() && p.IsIndex() && i < NUM_INDIRECT_BLOCKS && !Child(p, i).IsIndex()
      requires num == Val(cache.flat, inodes[id], p) >= 0 && |cache.pins| + 2 <= BLOCK_CONCURRENCY
      modifies this, cache, cache.slots
      ensures Kept() && inodes == old(inodes)
      ensures v < 0 ==> DiskFull()
      ensures v >= 0 ==> Val(cache.flat, inodes[id], Child(p, i)) == v
      ensures FilledOne(old(owner), owner, id, Child(p, i), v >= 0)
    {
      OwnedAt(cache.flat, inodes, owner, id, p);
      cache.OpenThenClose(num);
      var blk := cache.Open(num);
      v := FillEntry(id, p, i, blk, false, num);
      cache.Close(blk, num);
    }

    method MapDouble(id: nat, index: nat, offset: nat) returns (v: int)
      requires Sound() && id in inodes && index < NUM_INDIRECT_BLOCKS && offset < NUM_INDIRECT_BLOCKS
      requires |cache.pins| + 3 <= BLOCK_CONCURRENCY
      modifies this, cache, cache.slots
      ensures Kept()
      ensures v < 0 ==> DiskFull()
      ensures v >= 0 ==> Val(cache.flat, inodes[id], Leaf(index, offset)) == v
      ensures FilledPath(old(owner), owner, id, [Dbl, Mid(index), Leaf(index, offset)], v >= 0)
    {
      var dbl := FillInode(id, Dbl);
      assert [Dbl] + [Mid(index), Leaf(index, offset)] == [Dbl, Mid(index), Leaf(index, offset)];
      if dbl < 0 {
        PathStops(old(owner), owner, id, Dbl, [Mid(index), Leaf(index, offset)]);
        v := -1;
        return;
      }
      ghost var d1, inodes1, owner1 := cache.flat, inodes, owner;
      OwnedAt(cache.flat, inodes, owner, id, Dbl);
      cache.OpenThenClose(dbl);
      var root := cache.Open(dbl);
      v := MapMiddle(id, index, offset, root, dbl);
      PathThen(old(owner), owner1, owner, id, Dbl, [Mid(index), Leaf(index, offset)], v >= 0);
      SameFilesTrans(old(cache.flat), old(inodes), d1, inodes1, cache.flat, inodes);
      cache.Close(root, dbl);
    }

    /** Below the open root block of the double index. */
    method MapMiddle(id: nat, index: nat, offset: nat, root: nat, ghost dbl: int) returns (v: int)
      requires Sound() && id in inodes && index < NUM_INDIRECT_BLOCKS && offset < NUM_INDIRECT_BLOCKS
      requires dbl == Val(cache.flat, inodes[id], Dbl) >= 0 && cache.Handle(root, dbl)
      requires |cache.pins| + 2 <= BLOCK_CONCURRENCY
      modifies this, cache, cache.slots
      ensures Kept() && inodes == old(inodes)
      ensures v < 0 ==> DiskFull()
      ensures v >= 0 ==> Val(cache.flat, inodes[id], Leaf(index, offset)) == v
      ensures FilledPath(old(owner), owner, id, [Mid(index), Leaf(index, offset)], v >= 0)
    {
      var mid := FillEntry(id, Dbl, index, root, true, dbl);
      assert [Mid(index)] + [Leaf(index, offset)] == [Mid(index), Leaf(index, offset)];
      if mid < 0 {
        PathStops(old(owner), owner, id, Mid(index), [Leaf(index, offset)]);
        v := -1;
        return;
      }
      ghost var d1, inodes1, owner1 := cache.flat, inodes, owner;
      v := FillIn(id, Mid(index), offset, mid);
      OnePath(owner1, owner, id, Leaf(index, offset), v >= 0);
      PathThen(old(owner), owner1, owner, id, Mid(index), [Leaf(index, offset)], v >= 0);
      SameFilesTrans(old(cache.flat), old(inodes), d1, inodes1, cache.flat, inodes);
    }

    // ---- files ----

    ghost function Files(): map<nat, File>
      reads this, cache
    {
      FilesOf(cache.flat, inodes)
    }

    /** All files as byte sequences. */
    ghost function View(): map<nat, seq<Byte>>
      reads this, cache
    {
      BytesOf(Files())
    }

    /** Returns the slice clipped to the file, or a shorter prefix of it when the disk is full (reading
        a hole allocates it); no file changes. */
    method Read(id: nat, offset0: nat, length0: nat) returns (dest: seq<Byte>)
      requires Valid() && id in inodes && offset0 < UINT32 && length0 < UINT32
      requires |cache.pins| + 3 <= BLOCK_CONCURRENCY
      modifies this, cache, cache.slots
      ensures Valid() && cache.pins == old(cache.pins) && Files() == old(Files())
      ensures |dest| <= Max(0, old(inodes)[id].size - offset0)
      ensures dest <= ReadSpec(old(View())[id], offset0, length0)
      ensures |dest| < |ReadSpec(old(View())[id], offset0, length0)| ==> DiskFull()
      ensures Grew(old(owner), owner, id)
      ensures OneBlock(offset0, length0) && Missing(old(owner), id, PathTo(offset0 / BLOCK_SIZE)) == 0 ==>
        dest == ReadSpec(old(View())[id], offset0, length0) && owner == old(owner)
    {
      dest := [];
      var offset, length := offset0, length0;
      if offset > inodes[id].size || SumWraps(offset, length) {
        return;
      }
      if offset + length > inodes[id].size {
        length := inodes[id].size - offset;
      }
      ghost var d, was := cache.flat, inodes;
      dest := ReadLoop(id, offset, length, d, was);
      ReadSpecIsSlice(d, was[id], offset0, length0, length, |dest|);
      ContentsIsBytes(d, was[id]);
      SameFilesOf(d, was, cache.flat, inodes);
    }

    method ReadLoop(id: nat, offset0: nat, length: nat, ghost d: Disk, ghost was: map<nat, Inode>)
      returns (dest: seq<Byte>)
      requires Sound() && id in inodes && offset0 + length < UINT32
      requires |cache.pins| + 3 <= BLOCK_CONCURRENCY && SameFiles(d, was, cache.flat, inodes)
      modifies this, cache, cache.slots
      ensures Sound() && cache.pins == old(cache.pins) && SameFiles(d, was, cache.flat, inodes)
      ensures |dest| <= length && id in was && dest == FileSlice(d, was[id], offset0, |dest|)
      ensures |dest| < length ==> DiskFull()
      ensures Grew(old(owner), owner, id)
      ensures OneBlock(offset0, length) && Missing(old(owner), id, PathTo(offset0 / BLOCK_SIZE)) == 0 ==>
        |dest| == length && owner == old(owner)
    {
      dest := [];
      var total, offset := 0, offset0;
      while total < length
        invariant total <= length && offset == offset0 + total
        invariant Sound() && cache.pins == old(cache.pins) && SameFiles(d, was, cache.flat, inodes)
        invariant dest == FileSlice(d, was[id], offset0, total)
        invariant Grew(old(owner), owner, id)
        invariant OneBlock(offset0, length) ==> total == 0 || total == length
        invariant OneBlock(offset0, length) && Missing(old(owner), id, PathTo(offset0 / BLOCK_SIZE)) == 0 ==>
          owner == old(owner)
      {
        var chunkSize := ChunkSize(offset, length - total);
        ghost var owner1 := owner;
        var ok, part := ReadChunk(id, offset, chunkSize, d, was);
        GrewTrans(old(owner), owner1, owner, id);
        if OneBlock(offset0, length) && Missing(old(owner), id, PathTo(offset0 / BLOCK_SIZE)) == 0 {
          FullPath(owner1, owner, id, PathTo(offset0 / BLOCK_SIZE), ok);
        }
        if !ok {
          break;
        }
        SliceExtends(d, was[id], offset0, total, chunkSize);
        dest := dest + part;
        total, offset := total + chunkSize, offset + chunkSize;
      }
    }

    /** One chunk of a read: map the block, open it, copy out of it. */
    method ReadChunk(id: nat, offset: nat, chunkSize: nat, ghost d: Disk, ghost was: map<nat, Inode>)
      returns (ok: bool, part: seq<Byte>)
      requires Sound() && id in inodes && offset < UINT32 && offset % BLOCK_SIZE + chunkSize <= BLOCK_SIZE
      requires |cache.pins| + 3 <= BLOCK_CONCURRENCY && SameFiles(d, was, cache.flat, inodes)
      requires offset + chunkSize <= UINT32
      modifies this, cache, cache.slots
      ensures Sound() && cache.pins == old(cache.pins) && SameFiles(d, was, cache.flat, inodes)
      ensures ok ==> id in was && part == FileSlice(d, was[id], offset, chunkSize)
      ensures !ok ==> DiskFull()
      ensures FilledPath(old(owner), owner, id, PathTo(offset / BLOCK_SIZE), ok)
    {
      part := [];
      OffsetsInRange(offset);
      var blockNum := MapBlock(id, offset / BLOCK_SIZE);
      ok := blockNum >= 0;
      SameFilesTrans(d, was, old(cache.flat), old(inodes), cache.flat, inodes);
      if ok {
        ChunkIsFile(cache.flat, inodes, owner, id, offset, blockNum, chunkSize);
        SameSlice(d, was, cache.flat, inodes, id, offset, chunkSize);
        cache.OpenThenClose(blockNum);
        var blk := cache.Open(blockNum);
        cache.HandleView(blk, blockNum);
        part := cache.slots[blk].data.bytes[offset % BLOCK_SIZE..offset % BLOCK_SIZE + chunkSize];
        cache.Close(blk, blockNum);
      }
    }

    /** Copies bytes into the file from an offset on, going round at 32 bits, and reports how many fitted:
        all of them unless the disk is full. Other files do not change. */
    method Write(id: nat, offset0: nat, src: seq<Byte>) returns (total: nat)
      requires Valid() && id in inodes && offset0 < UINT32 && |src| < UINT32
      requires |cache.pins| + 3 <= BLOCK_CONCURRENCY
      modifies this, cache, cache.slots
      ensures Valid() && cache.pins == old(cache.pins)
      ensures total <= |src| && (total < |src| ==> DiskFull())
      ensures inodes.Keys == old(inodes).Keys
      ensures Files() == old(Files())[id := Written(old(Files())[id], offset0, src[..total])]
      ensures Grew(old(owner), owner, id)
      ensures OneBlock(offset0, |src|) && src != [] ==>
        && (total == 0 || total == |src|)
        && (total == |src| <==> old(usedBlock) + Missing(old(owner), id, PathTo(offset0 / BLOCK_SIZE)) <= BLOCK_COUNT)
        && (total == |src| ==> usedBlock == old(usedBlock) + Missing(old(owner), id, PathTo(offset0 / BLOCK_SIZE)))
        && (total == |src| ==> Missing(owner, id, PathTo(offset0 / BLOCK_SIZE)) == 0)
    {
      ghost var d, was := cache.flat, inodes;
      total := WriteLoop(id, offset0, src, d, was);
      OwnerBound(cache.flat, inodes, owner);
      if total < |src| { AllMarkedCount(cache.flat, inodes, owner); }
      GrowTo(id, End(offset0, total), d, was, offset0, src[..total]);
    }

    /** The end of a write: the size becomes the offset reached if that is past the old end. */
    method GrowTo(id: nat, offset: nat, ghost d: Disk, ghost was: map<nat, Inode>, ghost off: nat, ghost bytes: seq<Byte>)
      requires Sound() && id in inodes && id in was && off < UINT32 && offset == End(off, |bytes|)
      requires Wrote(d, was, cache.flat, inodes, id, off, bytes)
      requires forall id' :: id' in was ==> was[id'].size < UINT32
      modifies this`inodes
      ensures inodes.Keys == was.Keys
      ensures Valid() && Files() == FilesOf(d, was)[id := Written(FileOf(d, was[id]), off, bytes)]
    {
      ghost var size := if offset > was[id].size then offset else was[id].size;
      Resized(d, was, cache.flat, inodes, id, off, bytes, size);
      SizeKeepsOwned(cache.flat, inodes, owner, id, size);
      if offset > inodes[id].size {
        inodes := inodes[id := inodes[id].(size := offset)];
      } else {
        assert inodes == inodes[id := inodes[id].(size := inodes[id].size)];
      }
    }

    method WriteLoop(id: nat, offset0: nat, src: seq<Byte>, ghost d: Disk, ghost was: map<nat, Inode>)
      returns (total: nat)
      requires Sound() && id in inodes && offset0 < UINT32 && |src| < UINT32 && d == cache.flat && was == inodes
      requires |cache.pins| + 3 <= BLOCK_CONCURRENCY
      modifies this, cache, cache.slots
      ensures Sound() && cache.pins == old(cache.pins)
      ensures total <= |src| && (total < |src| ==> DiskFull())
      ensures Wrote(d, was, cache.flat, inodes, id, offset0, src[..total])
      ensures Grew(old(owner), owner, id)
      ensures OneBlock(offset0, |src|) && src != [] ==>
        && (total == 0 || total == |src|)
        && FilledPath(old(owner), owner, id, PathTo(offset0 / BLOCK_SIZE), total == |src|)
    {
      var offset := offset0;
      total := 0;
      while total < |src|
        invariant total <= |src| && offset == End(offset0, total)
        invariant Sound() && cache.pins == old(cache.pins)
        invariant Wrote(d, was, cache.flat, inodes, id, offset0, src[..total])
        invariant Grew(old(owner), owner, id) && (total == 0 ==> owner == old(owner))
        invariant OneBlock(offset0, |src|) && total > 0 ==>
          total == |src| && FilledPath(old(owner), owner, id, PathTo(offset0 / BLOCK_SIZE), true)
      {
        var chunkSize := ChunkSize(offset, |src| - total);
        ghost var owner1 := owner;
        var ok := WriteChunk(id, offset0, src[total..total + chunkSize], d, was, src[..total], offset);
        GrewTrans(old(owner), owner1, owner, id);
        if !ok {
          break;
        }
        assert src[..total] + src[total..total + chunkSize] == src[..total + chunkSize];
        EndTwice(offset0, total, chunkSize);
        total, offset := total + chunkSize, End(offset, chunkSize);
      }
    }

    /** One chunk of a write: map the block, open it, copy into it. */
    method WriteChunk(id: nat, ghost off: nat, chunk: seq<Byte>, ghost d: Disk, ghost was: map<nat, Inode>,
                      ghost bytes: seq<Byte>, offset: nat) returns (ok: bool)
      requires Sound() && id in inodes && id in was
      requires off < UINT32 && |bytes| + |chunk| < UINT32 && offset == End(off, |bytes|)
      requires offset % BLOCK_SIZE + |chunk| <= BLOCK_SIZE && |cache.pins| + 3 <= BLOCK_CONCURRENCY
      requires Wrote(d, was, cache.flat, inodes, id, off, bytes)
      modifies this, cache, cache.slots
      ensures Sound() && cache.pins == old(cache.pins)
      ensures ok ==> Wrote(d, was, cache.flat, inodes, id, off, bytes + chunk)
      ensures !ok ==> Wrote(d, was, cache.flat, inodes, id, off, bytes) && DiskFull()
      ensures FilledPath(old(owner), owner, id, PathTo(offset / BLOCK_SIZE), ok)
    {
      OffsetsInRange(offset);
      ghost var d1, inodes1 := cache.flat, inodes;
      var blockNum := MapBlock(id, offset / BLOCK_SIZE);
      ok := blockNum >= 0;
      if ok {
        ChunkIsFile(cache.flat, inodes, owner, id, offset, blockNum, |chunk|);
        ghost var d2 := cache.flat;
        ghost var block := Patched(d2[blockNum].bytes, offset % BLOCK_SIZE, chunk);
        WroteChunk(d, was, d1, inodes1, d2, inodes, owner, id, off, bytes, offset, chunk, block);
        WriteKeepsOwned(d2, inodes, owner, id, offset / BLOCK_SIZE, block);
        cache.OpenThenClose(blockNum);
        var blk := cache.Open(blockNum);
        cache.HandleView(blk, blockNum);
        cache.Update(blk, Data(Patched(cache.slots[blk].data.bytes, offset % BLOCK_SIZE, chunk)), blockNum);
        cache.Close(blk, blockNum);
        assert cache.flat == d2[blockNum := Data(block)];
      } else {
        WroteSame(d, was, d1, inodes1, cache.flat, inodes, id, off, bytes);
      }
    }

    // ---- deleting ----

    /** The blocks of inode id that are still marked are those the deletion has not reached. */
    ghost predicate Freeing(d0: Disk, owner0: Owners, id: nat, pr: Progress)
      reads this, cache, cache.slots
    {
      && cache.Valid() && Deleting(d0, cache.flat, inodes, owner0, owner, id) && usedBlock == |owner|
      && Remaining(d0, inodes[id], owner, pr)
    }

    /** Frees the block stored at place r, if there is one: it is still marked, and no other place's
        block is affected. */
    method FreeAt(b: int, ghost d0: Disk, ghost owner0: Owners, ghost id: nat, ghost r: Ref,
                  ghost pr: Progress, ghost pr': Progress)
      requires Freeing(d0, owner0, id, pr) && |cache.pins| < BLOCK_CONCURRENCY
      requires r.Ok() && b == Val(d0, inodes[id], r) && Passes(pr, pr', r)
      modifies this`usedBlock, this`owner, cache, cache.slots
      ensures Freeing(d0, owner0, id, pr') && cache.pins == old(cache.pins) && cache.KeepsHandles()
    {
      if b >= 0 {
        assert LeftAt(d0, inodes[id], owner, pr, r) && Step1(pr, pr', r, r);
        OwnedAt(d0, inodes, owner0, id, r);
        ghost var d := cache.flat;
        BlockFree(b);
        DeleteStep(d0, d, cache.flat, inodes, owner0, owner, id, b);
        LeftAfterFree(d0, inodes, owner0, owner, id, r, pr, pr');
        owner := owner - {b};
      } else {
        LeftAfterSkip(d0, inodes[id], owner, r, pr, pr');
      }
    }

    method FreeDirects(id: nat, ghost d0: Disk, ghost owner0: Owners)
      requires Freeing(d0, owner0, id, Progress(0, 0, false, 0, 0, false)) && |cache.pins| < BLOCK_CONCURRENCY
      modifies this`usedBlock, this`owner, cache, cache.slots
      ensures Freeing(d0, owner0, id, Progress(NUM_DIRECT_BLOCKS, 0, false, 0, 0, false))
      ensures cache.pins == old(cache.pins)
    {
      var i := 0;
      while i < NUM_DIRECT_BLOCKS
        invariant 0 <= i <= NUM_DIRECT_BLOCKS
        invariant Freeing(d0, owner0, id, Progress(i, 0, false, 0, 0, false)) && cache.pins == old(cache.pins)
      {
        FreeAt(inodes[id].direct[i], d0, owner0, id, Direct(i),
               Progress(i, 0, false, 0, 0, false), Progress(i + 1, 0, false, 0, 0, false));
        i := i + 1;
      }
    }

    /** Frees every block listed in an open index block. */
    method FreeEntries(id: nat, num: int, ghost d0: Disk, ghost owner0: Owners, ghost p: Ref, ghost pr: Progress)
      requires Freeing(d0, owner0, id, At(pr, p, 0)) && |cache.pins| + 2 <= BLOCK_CONCURRENCY
      requires p.Ok() && (p.Ind? || p.Mid?) && num == Val(d0, inodes[id], p) >= 0 && (p.Mid? ==> pr.mid == p.i)
      modifies this`usedBlock, this`owner, cache, cache.slots
      ensures Freeing(d0, owner0, id, At(pr, p, NUM_INDIRECT_BLOCKS))
      ensures cache.pins == old(cache.pins) && cache.KeepsHandles()
    {
      IndexIntact(d0, cache.flat, inodes, owner0, owner, id, p);
      cache.OpenThenClose(num);
      var blk := cache.Open(num);
      cache.HandleView(blk, num);
      var arr := cache.slots[blk].data.entries;
      ghost var pins := cache.pins;
      var i := 0;
      while i < NUM_INDIRECT_BLOCKS
        invariant 0 <= i <= NUM_INDIRECT_BLOCKS
        invariant Freeing(d0, owner0, id, At(pr, p, i))
        invariant cache.pins == pins && cache.Handle(blk, num) && cache.KeepsHandles()
      {
        EntryPasses(d0, inodes, owner0, id, pr, p, i);
        FreeAt(arr[i], d0, owner0, id, Child(p, i), At(pr, p, i), At(pr, p, i + 1));
        i := i + 1;
      }
      cache.Close(blk, num);
    }

    method FreeIndirect(id: nat, ghost d0: Disk, ghost owner0: Owners)
      requires Freeing(d0, owner0, id, Progress(NUM_DIRECT_BLOCKS, 0, false, 0, 0, false))
      requires |cache.pins| + 2 <= BLOCK_CONCURRENCY
      modifies this`usedBlock, this`owner, cache, cache.slots
      ensures Freeing(d0, owner0, id, AtMid(0))
      ensures cache.pins == old(cache.pins)
    {
      ghost var pr := Progress(NUM_DIRECT_BLOCKS, 0, false, 0, 0, false);
      if inodes[id].indirect >= 0 {
        FreeEntries(id, inodes[id].indirect, d0, owner0, Ind, pr);
        FreeAt(inodes[id].indirect, d0, owner0, id, Ind, At(pr, Ind, NUM_INDIRECT_BLOCKS),
               AtMid(0));
      } else {
        NothingIndirect(d0, inodes[id], owner);
      }
    }

    method FreeDouble(id: nat, ghost d0: Disk, ghost owner0: Owners)
      requires Freeing(d0, owner0, id, AtMid(0))
      requires |cache.pins| + 3 <= BLOCK_CONCURRENCY
      modifies this`usedBlock, this`owner, cache, cache.slots
      ensures Freeing(d0, owner0, id, DONE) && cache.pins == old(cache.pins)
    {
      var num := inodes[id].doubleIndirect;
      if num < 0 {
        NothingDouble(d0, inodes[id], owner);
        return;
      }
      IndexIntact(d0, cache.flat, inodes, owner0, owner, id, Dbl);
      cache.OpenThenClose(num);
      var root := cache.Open(num);
      cache.HandleView(root, num);
      var arr := cache.slots[root].data.entries;
      ghost var pins := cache.pins;
      var i := 0;
      while i < NUM_INDIRECT_BLOCKS
        invariant 0 <= i <= NUM_INDIRECT_BLOCKS
        invariant Freeing(d0, owner0, id, AtMid(i)) && cache.pins == pins && cache.Handle(root, num)
      {
        FreeMiddle(id, i, arr[i], d0, owner0);
        i := i + 1;
      }
      cache.Close(root, num);
      FreeAt(num, d0, owner0, id, Dbl, AtMid(NUM_INDIRECT_BLOCKS), DONE);
    }

    /** One second-level block of the double index: its entries, then itself. */
    method FreeMiddle(id: nat, i: nat, num: int, ghost d0: Disk, ghost owner0: Owners)
      requires Freeing(d0, owner0, id, AtMid(i)) && |cache.pins| + 2 <= BLOCK_CONCURRENCY
      requires i < NUM_INDIRECT_BLOCKS && num == Val(d0, inodes[id], Mid(i))
      modifies this`usedBlock, this`owner, cache, cache.slots
      ensures Freeing(d0, owner0, id, AtMid(i + 1)) && cache.pins == old(cache.pins) && cache.KeepsHandles()
    {
      if num >= 0 {
        FreeEntries(id, num, d0, owner0, Mid(i), AtMid(i));
        FreeAt(num, d0, owner0, id, Mid(i), At(AtMid(i), Mid(i), NUM_INDIRECT_BLOCKS), AtMid(i + 1));
      } else {
        NothingBelow(d0, inodes[id], owner, i);
      }
    }

    /** Deletes an inode: every block it owned is unmarked exactly once, no other block changes its mark,
        and every other file keeps its bytes. */
    method Delete(id: nat)
      requires Valid() && id in inodes && |cache.pins| + 3 <= BLOCK_CONCURRENCY
      modifies this, cache, cache.slots
      ensures Valid() && cache.pins == old(cache.pins) && inodes == old(inodes) - {id}
      ensures forall v :: v in owner <==> v in old(owner) && old(owner)[v].0 != id
      ensures forall v :: v in owner ==> owner[v] == old(owner)[v]
      ensures usedBlock == old(usedBlock) - |set v | v in old(owner) && old(owner)[v].0 == id|
      ensures Files() == old(Files()) - {id} && View() == old(View()) - {id}
    {
      ghost var d0, owner0, was := cache.flat, owner, inodes;
      DeleteStart(d0, inodes, owner0, id);
      FreeDirects(id, d0, owner0);
      FreeIndirect(id, d0, owner0);
      FreeDouble(id, d0, owner0);
      NoneRemaining(d0, inodes[id], owner);
      DeleteDone(d0, cache.flat, inodes, owner0, owner, id);
      DeleteLeaves(d0, was, cache.flat, id, owner0, owner);
      DeleteFiles(d0, was, cache.flat, id);
      inodes := inodes - {id};
    }

    // ---- whole runs ----

    /** A fresh inode has no blocks and no bytes. */
    method Create(id: nat)
      requires Valid() && id !in inodes
      modifies this`inodes
      ensures Valid() && Files() == old(Files())[id := EmptyFile()] && View() == old(View())[id := []]
      ensures inodes.Keys == old(inodes).Keys + {id}
    {
      var ino := Inode(0, seq(NUM_DIRECT_BLOCKS, _ => -1), -1, -1);
      CreateKeepsOwned(cache.flat, inodes, owner, id, ino);
      inodes := inodes[id := ino];
      assert FileOf(cache.flat, ino) == EmptyFile();
      BytesPut(old(Files()), id, EmptyFile());
    }

    /** Carries out one operation; one that names no existing inode does nothing. Only a full disk can
        make a read or a write come up short. */
    method Apply(op: Op) returns (out: Out)
      requires Valid() && |cache.pins| + 3 <= BLOCK_CONCURRENCY && op.InRange()
      modifies this, cache, cache.slots
      ensures Valid() && cache.pins == old(cache.pins)
      ensures FileStep(old(Files()), op, out, Files())
      ensures !Complete(old(Files()), op, out) ==> DiskFull()
    {
      out := Out([], 0);
      match op {
        case OpCreate(id) =>
          if id !in inodes { Create(id); }
        case OpDelete(id) =>
          if id in inodes { Delete(id); }
        case OpRead(id, off, len) =>
          if id in inodes {
            var bytes := Read(id, off, len);
            out := Out(bytes, 0);
          }
        case OpWrite(id, off, src) =>
          if id in inodes {
            var total := Write(id, off, src);
            out := Out([], total);
          }
      }
    }

    /** A full disk is one whose every data block is in use. */
    lemma FullIsAllUsed()
      requires Valid() && DiskFull()
      ensures usedBlock == BLOCK_COUNT
    {
      AllMarkedCount(cache.flat, inodes, owner);
    }

    /** Over any run, starting from any valid state, the recorded files follow the meaning of every
        operation, and an operation is cut short only if it left every data block of the disk in use. */
    method Run(ops: seq<Op>) returns (outs: seq<Out>, ghost files: seq<map<nat, File>>, ghost used: seq<int>)
      requires Valid() && |cache.pins| + 3 <= BLOCK_CONCURRENCY && forall op :: op in ops ==> op.InRange()
      modifies this, cache, cache.slots
      ensures Valid() && cache.pins == old(cache.pins) && |outs| == |ops| && |files| == |used| == |ops| + 1
      ensures files[0] == old(Files()) && files[|ops|] == Files() && used[0] == old(usedBlock) && used[|ops|] == usedBlock
      ensures forall i :: 0 <= i < |ops| ==> FileStep(files[i], ops[i], outs[i], files[i + 1])
      ensures forall i :: 0 <= i < |ops| ==> Complete(files[i], ops[i], outs[i]) || used[i + 1] == BLOCK_COUNT
    {
      outs, files, used := [], [Files()], [usedBlock];
      var i := 0;
      while i < |ops|
        invariant 0 <= i <= |ops| && |outs| == i && |files| == |used| == i + 1
        invariant Valid() && cache.pins == old(cache.pins)
        invariant files[0] == old(Files()) && files[i] == Files() && used[0] == old(usedBlock) && used[i] == usedBlock
        invariant forall k :: 0 <= k < i ==> FileStep(files[k], ops[k], outs[k], files[k + 1])
        invariant forall k :: 0 <= k < i ==> Complete(files[k], ops[k], outs[k]) || used[k + 1] == BLOCK_COUNT
      {
        var out := Apply(ops[i]);
        if !Complete(files[i], ops[i], out) { FullIsAllUsed(); }
        outs, files, used := outs + [out], files + [Files()], used + [usedBlock];
        i := i + 1;
      }
    }
  }
}
