/** Copying between kernel buffers and user memory, page by page, while pages come and go. */
module UserCopy {
  import opened Common
  import opened PagingModel
  import opened Paging

  /** The page an address of a space lies in. */
  function KeyAt(sp: nat, a: nat): Key { Key(sp, a / PAGE_SIZE) }

  lemma KeyCovers(sp: nat, a: nat)
    ensures KeyAt(sp, a).space == sp && KeyAt(sp, a).vpn * 4096 <= a < (KeyAt(sp, a).vpn + 1) * 4096
  {
  }

  /** The byte at user address a of a space. */
  function UByte(v: map<Key, Page>, sp: nat, a: nat): Byte {
    if KeyAt(sp, a) in v && a % PAGE_SIZE < |v[KeyAt(sp, a)]| then v[KeyAt(sp, a)][a % PAGE_SIZE] else 0
  }

  /** How far user address a lies past va, around the 39-bit address space. */
  function Past(va: nat, a: nat): (r: nat)
    ensures r < VA_SPAN
  {
    (a - va) % VA_SPAN
  }

  /** Addresses go round at 2^39. */
  lemma PastMeans(va: nat, a: nat)
    requires va < 0x80_0000_0000 && a < 0x80_0000_0000
    ensures Past(va, a) == if a >= va then a - va else a - va + 0x80_0000_0000
  {
  }

  /** After copying bytes to va, address a of space sp' holds its byte of the copy, or what it held before. */
  ghost predicate ByteOk(v: map<Key, Page>, v': map<Key, Page>, sp: nat, va: nat, bytes: seq<Byte>, sp': nat, a: int) {
    0 <= a < VA_SPAN ==>
      if sp' == sp && Past(va, a) < |bytes|
      then KeyAt(sp', a) in v' && UByte(v', sp', a) == bytes[Past(va, a)]
      else KeyAt(sp', a) in v ==> KeyAt(sp', a) in v' && UByte(v', sp', a) == UByte(v, sp', a)
  }

  ghost predicate Copied(v: map<Key, Page>, v': map<Key, Page>, sp: nat, va: nat, bytes: seq<Byte>) {
    forall sp', a :: ByteOk(v, v', sp, va, bytes, sp', a)
  }

  lemma SpanSplit(va: nat, n: nat, len: nat)
    requires (va + n) % VA_SPAN % PAGE_SIZE + len <= PAGE_SIZE
    ensures (va + n) % VA_SPAN + len <= VA_SPAN
  {
  }

  /** The addresses of one chunk are exactly those that lie past va by n up to n + len. */
  lemma ChunkHit(va: nat, n: nat, len: nat, a: nat)
    requires a < VA_SPAN && n + len <= VA_SPAN
    requires (va + n) % VA_SPAN % PAGE_SIZE + len <= PAGE_SIZE
    ensures var b := (va + n) % VA_SPAN;
      && (n <= Past(va, a) < n + len <==> b <= a < b + len)
      && (b <= a < b + len ==> Past(va, a) - n == a - b)
  {
    var b := (va + n) % VA_SPAN;
    SpanSplit(va, n, len);
    var q := (va + n) / VA_SPAN;
    assert va + n == q * VA_SPAN + b;
    if b <= a < b + len {
      assert a - va == (n + (a - b)) - q * VA_SPAN;
      ModShift(n + (a - b), q, VA_SPAN);
    }
    if n <= Past(va, a) < n + len {
      var j := Past(va, a) - n;
      var q' := (a - va) / VA_SPAN;
      assert a == (q' + q) * VA_SPAN + b + j;
      assert 0 <= b + j < VA_SPAN;
      ModUnique(a, q' + q, b + j);
    }
  }

  lemma ModShift(x: nat, q: nat, m: nat)
    requires x < m && m == VA_SPAN
    ensures (x - q * m) % m == x
  {
  }

  lemma ModUnique(a: nat, q: int, r: nat)
    requires a < VA_SPAN && r < VA_SPAN && a == q * VA_SPAN + r
    ensures a == r
  {
  }

  lemma PageBounds(b: nat, a: nat, len: nat)
    requires b % PAGE_SIZE + len <= PAGE_SIZE
    ensures b <= a < b + len <==>
            a / PAGE_SIZE == b / PAGE_SIZE && b % PAGE_SIZE <= a % PAGE_SIZE < b % PAGE_SIZE + len
    ensures b <= a < b + len ==> a - b == a % PAGE_SIZE - b % PAGE_SIZE
  {
  }

  /** One more chunk of a copy into user memory. */
  lemma CopiedMore(v: map<Key, Page>, v1: map<Key, Page>, v2: map<Key, Page>, sp: nat, va: nat,
                   bytes: seq<Byte>, chunk: seq<Byte>)
    requires Copied(v, v1, sp, va, bytes) && Extends(v1, v2) && |bytes| + |chunk| <= VA_SPAN
    requires (va + |bytes|) % VA_SPAN % PAGE_SIZE + |chunk| <= PAGE_SIZE
    requires KeyAt(sp, (va + |bytes|) % VA_SPAN) in v2 && |v2[KeyAt(sp, (va + |bytes|) % VA_SPAN)]| == PAGE_SIZE
    ensures var b := (va + |bytes|) % VA_SPAN;
      var k := KeyAt(sp, b);
      Copied(v, v2[k := Patched(v2[k], b % PAGE_SIZE, chunk)], sp, va, bytes + chunk)
  {
    var b := (va + |bytes|) % VA_SPAN;
    var k := KeyAt(sp, b);
    var page := Patched(v2[k], b % PAGE_SIZE, chunk);
    var v3 := v2[k := page];
    var bytes' := bytes + chunk;
    forall sp', a ensures ByteOk(v, v3, sp, va, bytes', sp', a) {
      assert ByteOk(v, v1, sp, va, bytes, sp', a);
      if 0 <= a < VA_SPAN {
        ChunkHit(va, |bytes|, |chunk|, a);
        PageBounds(b, a, |chunk|);
        assert k == KeyAt(sp', a) ==> UByte(v3, sp', a) == page[a % PAGE_SIZE];
      }
    }
  }

  /** memcpy_kva2uva: the user sees exactly the bytes copied at va, and every other byte of every mapped page is
      unchanged, whatever was evicted on the way. All of src is copied unless memory runs out. */
  method CopyToUser(m: Memory, sp: nat, va: nat, src: seq<Byte>) returns (done: nat)
    requires m.Valid() && sp in m.vm.groupOf && |src| <= VA_SPAN
    modifies m
    ensures m.Valid() && m.vm.groupOf == old(m.vm).groupOf
    ensures done <= |src| && Copied(old(View(m.vm)), View(m.vm), sp, va, src[..done])
    ensures done < |src| ==> m.Stuck(m.vm.groupOf[sp])
  {
    ghost var v := View(m.vm);
    done := 0;
    while done < |src|
      invariant 0 <= done <= |src| && m.Valid() && m.vm.groupOf == old(m.vm).groupOf
      invariant Copied(v, View(m.vm), sp, va, src[..done])
    {
      var b := (va + done) % VA_SPAN;
      var capacity := PAGE_SIZE - b % PAGE_SIZE;
      var active := if |src| - done < capacity then |src| - done else capacity;
      var ok := StoreChunk(m, sp, va, b, src[done..done + active], v, src[..done]);
      if !ok {
        return;
      }
      assert src[..done] + src[done..done + active] == src[..done + active];
      done := done + active;
    }
  }

  /** Makes one page resident and stores into it. */
  method StoreChunk(m: Memory, sp: nat, ghost va: nat, b: nat, chunk: seq<Byte>, ghost v: map<Key, Page>,
                    ghost bytes: seq<Byte>)
    returns (ok: bool)
    requires m.Valid() && sp in m.vm.groupOf && b == (va + |bytes|) % VA_SPAN && b % PAGE_SIZE + |chunk| <= PAGE_SIZE
    requires |bytes| + |chunk| <= VA_SPAN && Copied(v, View(m.vm), sp, va, bytes)
    modifies m
    ensures m.Valid() && m.vm.groupOf == old(m.vm).groupOf
    ensures Copied(v, View(m.vm), sp, va, if ok then bytes + chunk else bytes)
    ensures !ok ==> m.Stuck(m.vm.groupOf[sp])
  {
    ghost var v1 := View(m.vm);
    var k := KeyAt(sp, b);
    var f;
    ok, f := m.AllocPage(k);
    if ok {
      ghost var v2 := View(m.vm);
      PageLength(m.vm, k);
      CopiedMore(v, v1, v2, sp, va, bytes, chunk);
      m.Store(k, f, Patched(m.vm.mem[f], b % PAGE_SIZE, chunk));
    }
  }

  /** memcpy_uva2kva: returns the bytes the user sees at va, all of them unless memory runs out; every mapped page
      keeps its bytes. */
  method CopyFromUser(m: Memory, sp: nat, va: nat, size: nat) returns (dest: seq<Byte>)
    requires m.Valid() && sp in m.vm.groupOf
    modifies m
    ensures m.Valid() && m.vm.groupOf == old(m.vm).groupOf && Extends(old(View(m.vm)), View(m.vm))
    ensures |dest| <= size && Fetched(View(m.vm), sp, va, dest)
    ensures |dest| < size ==> m.Stuck(m.vm.groupOf[sp])
  {
    ghost var v := View(m.vm);
    dest := [];
    while |dest| < size
      invariant |dest| <= size && m.Valid() && m.vm.groupOf == old(m.vm).groupOf
      invariant Extends(v, View(m.vm)) && Fetched(View(m.vm), sp, va, dest)
      decreases size - |dest|
    {
      var b := (va + |dest|) % VA_SPAN;
      var capacity := PAGE_SIZE - b % PAGE_SIZE;
      var active := if size - |dest| < capacity then size - |dest| else capacity;
      var ok, part := LoadChunk(m, sp, va, b, active, dest, v);
      dest := dest + part;
      if !ok {
        return;
      }
    }
  }

  /** dest holds the user's bytes from va on. */
  ghost predicate Fetched(v: map<Key, Page>, sp: nat, va: nat, dest: seq<Byte>) {
    forall i :: 0 <= i < |dest| ==> FetchedAt(v, sp, va, dest, i)
  }

  ghost predicate FetchedAt(v: map<Key, Page>, sp: nat, va: nat, dest: seq<Byte>, i: int)
    requires 0 <= i < |dest|
  {
    KeyAt(sp, (va + i) % VA_SPAN) in v && dest[i] == UByte(v, sp, (va + i) % VA_SPAN)
  }

  method LoadChunk(m: Memory, sp: nat, ghost va: nat, b: nat, active: nat, ghost dest: seq<Byte>, ghost v: map<Key, Page>)
    returns (ok: bool, part: seq<Byte>)
    requires m.Valid() && sp in m.vm.groupOf && b == (va + |dest|) % VA_SPAN && b % PAGE_SIZE + active <= PAGE_SIZE
    requires Extends(v, View(m.vm)) && Fetched(View(m.vm), sp, va, dest)
    modifies m
    ensures m.Valid() && m.vm.groupOf == old(m.vm).groupOf && Extends(v, View(m.vm))
    ensures if ok then |part| == active else part == [] && m.Stuck(m.vm.groupOf[sp])
    ensures Fetched(View(m.vm), sp, va, dest + part)
  {
    ghost var v1 := View(m.vm);
    var k := KeyAt(sp, b);
    var f;
    part := [];
    ok, f := m.AllocPage(k);
    if ok {
      PageLength(m.vm, k);
      var o := b % PAGE_SIZE;
      part := m.vm.mem[f][o..o + active];
      FetchedMore(v1, View(m.vm), sp, va, dest, part);
    } else {
      assert dest + part == dest;
    }
  }

  lemma FetchedMore(v: map<Key, Page>, v': map<Key, Page>, sp: nat, va: nat, dest: seq<Byte>, part: seq<Byte>)
    requires Fetched(v, sp, va, dest) && Extends(v, v')
    requires (va + |dest|) % VA_SPAN % PAGE_SIZE + |part| <= PAGE_SIZE
    requires var b := (va + |dest|) % VA_SPAN; var k := KeyAt(sp, b);
      k in v' && |v'[k]| == PAGE_SIZE && part == v'[k][b % PAGE_SIZE..b % PAGE_SIZE + |part|]
    ensures Fetched(v', sp, va, dest + part)
  {
    var b := (va + |dest|) % VA_SPAN;
    SpanSplit(va, |dest|, |part|);
    var all := dest + part;
    forall i | 0 <= i < |all| ensures FetchedAt(v', sp, va, all, i) {
      if i < |dest| {
        assert FetchedAt(v, sp, va, dest, i);
      } else {
        var j := i - |dest|;
        StepInSpan(va, |dest|, j);
        PageBounds(b, b + j, |part|);
      }
    }
  }

  lemma StepInSpan(va: nat, n: nat, j: nat)
    requires (va + n) % VA_SPAN + j < VA_SPAN
    ensures (va + n + j) % VA_SPAN == (va + n) % VA_SPAN + j
  {
  }

  lemma PageLength(s: Vm, k: Key)
    requires Wf(s) && k in s.pt && s.pt[k].Present?
    ensures s.pt[k].frame in s.mem && |s.mem[s.pt[k].frame]| == PAGE_SIZE && View(s)[k] == s.mem[s.pt[k].frame]
  {
    assert KeyOk(s, k) && FrameOk(s, s.pt[k].frame);
  }

  /** A copy in followed by a copy out returns the same bytes, for every size up to the address space and every
      alignment; when memory runs out on the way, a prefix of them. */
  method RoundTrip(m: Memory, sp: nat, va: nat, src: seq<Byte>) returns (dest: seq<Byte>)
    requires m.Valid() && sp in m.vm.groupOf && |src| <= VA_SPAN
    modifies m
    ensures m.Valid() && dest <= src
    ensures dest != src ==> m.vm.groupOf == old(m.vm).groupOf && m.Stuck(m.vm.groupOf[sp])
  {
    ghost var v := View(m.vm);
    var done := CopyToUser(m, sp, va, src);
    dest := [];
    if done == |src| {
      assert src[..done] == src;
      ghost var v1 := View(m.vm);
      dest := CopyFromUser(m, sp, va, |src|);
      assert Copied(v, v1, sp, va, src);
      ReadBack(v, v1, View(m.vm), sp, va, src, dest);
    }
  }

  lemma ReadBack(v: map<Key, Page>, v1: map<Key, Page>, v2: map<Key, Page>, sp: nat, va: nat, src: seq<Byte>,
                 dest: seq<Byte>)
    requires Copied(v, v1, sp, va, src) && Extends(v1, v2) && Fetched(v2, sp, va, dest)
    requires |dest| <= |src| <= VA_SPAN
    ensures dest <= src
  {
    forall i | 0 <= i < |dest| ensures dest[i] == src[i] {
      var a := (va + i) % VA_SPAN;
      assert FetchedAt(v2, sp, va, dest, i);
      PastOf(va, i);
      assert ByteOk(v, v1, sp, va, src, sp, a);
    }
  }

  lemma PastOf(va: nat, i: nat)
    requires i < VA_SPAN
    ensures Past(va, (va + i) % VA_SPAN) == i
  {
    var q := (va + i) / VA_SPAN;
    assert (va + i) % VA_SPAN - va == i - q * VA_SPAN;
    ModShift(i, q, VA_SPAN);
  }

  // ---- runs ----

  /** A page fault or kernel access, memory pressure on a space's group, and the two copies. */
  datatype Op =
    | Touch(space: nat, va: nat)
    | Squeeze(space: nat, room: nat)
    | CopyIn(space: nat, va: nat, bytes: seq<Byte>)
    | CopyOut(space: nat, va: nat, size: nat)

  /** The byte the latest copy put at address a of a space, if any did. */
  function Latest(ops: seq<Op>, sp: nat, a: nat): Option<Byte> {
    if ops == [] then None
    else
      var op := ops[|ops| - 1];
      if op.CopyIn? && op.space == sp && Past(op.va, a) < |op.bytes| then Some(op.bytes[Past(op.va, a)])
      else Latest(ops[..|ops| - 1], sp, a)
  }

  ghost predicate RunByte(v: map<Key, Page>, v': map<Key, Page>, ops: seq<Op>, sp: nat, a: int) {
    0 <= a < VA_SPAN ==>
      match Latest(ops, sp, a)
      case Some(b) => KeyAt(sp, a) in v' && UByte(v', sp, a) == b
      case None => KeyAt(sp, a) in v ==> KeyAt(sp, a) in v' && UByte(v', sp, a) == UByte(v, sp, a)
  }

  /** Memory after the operations: every byte is the one last copied there, or what it was. */
  ghost predicate Remembers(v: map<Key, Page>, v': map<Key, Page>, ops: seq<Op>) {
    forall sp, a :: RunByte(v, v', ops, sp, a)
  }

  lemma RemembersMore(v: map<Key, Page>, v1: map<Key, Page>, v2: map<Key, Page>, ops: seq<Op>, op: Op)
    requires Remembers(v, v1, ops)
    requires if op.CopyIn? then Copied(v1, v2, op.space, op.va, op.bytes) else Extends(v1, v2)
    ensures Remembers(v, v2, ops + [op])
  {
    var ops' := ops + [op];
    assert ops'[..|ops|] == ops;
    forall sp, a ensures RunByte(v, v2, ops', sp, a) {
      assert RunByte(v, v1, ops, sp, a);
      if op.CopyIn? { assert ByteOk(v1, v2, op.space, op.va, op.bytes, sp, a); }
    }
  }

  /** What a copy out returned: the bytes last copied there, or those there at the start. */
  ghost predicate ReadOk(v: map<Key, Page>, ops: seq<Op>, op: Op, out: seq<Byte>) {
    op.CopyOut? ==> forall i :: 0 <= i < |out| ==> ReadByteOk(v, ops, op.space, (op.va + i) % VA_SPAN, out[i])
  }

  ghost predicate ReadByteOk(v: map<Key, Page>, ops: seq<Op>, sp: nat, a: nat, b: Byte) {
    match Latest(ops, sp, a)
    case Some(c) => b == c
    case None => KeyAt(sp, a) in v ==> b == UByte(v, sp, a)
  }

  lemma FetchedIsLatest(v: map<Key, Page>, v': map<Key, Page>, ops: seq<Op>, op: Op, out: seq<Byte>)
    requires op.CopyOut? && Remembers(v, v', ops + [op]) && Fetched(v', op.space, op.va, out)
    ensures ReadOk(v, ops, op, out)
  {
    assert (ops + [op])[..|ops|] == ops;
    forall i | 0 <= i < |out| ensures ReadByteOk(v, ops, op.space, (op.va + i) % VA_SPAN, out[i]) {
      assert FetchedAt(v', op.space, op.va, out, i);
      assert RunByte(v, v', ops + [op], op.space, (op.va + i) % VA_SPAN);
    }
  }

  /** So for every copy out of a run. */
  ghost predicate ReadsOk(v: map<Key, Page>, ops: seq<Op>, outs: seq<seq<Byte>>) {
    |outs| == |ops| && forall i :: 0 <= i < |ops| ==> ReadOk(v, ops[..i], ops[i], outs[i])
  }

  lemma ReadsMore(v: map<Key, Page>, ops: seq<Op>, outs: seq<seq<Byte>>, op: Op, out: seq<Byte>)
    requires ReadsOk(v, ops, outs) && ReadOk(v, ops, op, out)
    ensures ReadsOk(v, ops + [op], outs + [out])
  {
    var ops', outs' := ops + [op], outs + [out];
    forall i | 0 <= i < |ops'| ensures ReadOk(v, ops'[..i], ops'[i], outs'[i]) {
      assert ops'[..i] == ops[..i];
      assert i == |ops| ==> ops[..i] == ops;
    }
  }

  /** The part of an operation that got done before memory ran out. */
  ghost predicate PartOf(part: Op, op: Op) {
    match op
    case CopyIn(sp, va, bytes) => part.CopyIn? && part.space == sp && part.va == va && part.bytes <= bytes
    case CopyOut(sp, va, size) => part.CopyOut? && part.space == sp && part.va == va && part.size <= size
    case _ => part == op
  }

  /** Memory has run out for an operation on the space. */
  ghost predicate Unable(m: Memory, op: Op)
    reads m
  {
    op.space in m.vm.groupOf &&
    var g := m.vm.groupOf[op.space];
    if op.Squeeze?
    then
      && g in m.vm.lists && g in m.capacity && |m.vm.lists[g]| + op.room > m.capacity[g]
      && (m.swapUsed == NUM_MAX_SWAP || forall f :: !IsLeafOn(m.vm.role, m.vm.lists[g], f))
    else m.Stuck(g)
  }

  /** The space's group has room for so many frames. */
  ghost predicate RoomFor(m: Memory, sp: nat, room: nat)
    reads m
  {
    && sp in m.vm.groupOf && m.vm.groupOf[sp] in m.vm.lists && m.vm.groupOf[sp] in m.capacity
    && |m.vm.lists[m.vm.groupOf[sp]]| + room <= m.capacity[m.vm.groupOf[sp]]
  }

  /** One operation, or as much of it as memory allows. */
  method Apply(m: Memory, op: Op) returns (ok: bool, out: seq<Byte>, ghost part: Op)
    requires m.Valid() && op.space in m.vm.groupOf && (op.CopyIn? ==> |op.bytes| <= VA_SPAN)
    modifies m
    ensures m.Valid() && m.vm.groupOf == old(m.vm).groupOf
    ensures PartOf(part, op) && if ok then part == op else Unable(m, op)
    ensures if part.CopyIn? then Copied(old(View(m.vm)), View(m.vm), part.space, part.va, part.bytes)
            else Extends(old(View(m.vm)), View(m.vm))
    ensures ok && op.Touch? ==>
      KeyAt(op.space, op.va % VA_SPAN) in m.vm.pt && m.vm.pt[KeyAt(op.space, op.va % VA_SPAN)].Present?
    ensures ok && op.Squeeze? ==> RoomFor(m, op.space, op.room)
    ensures if part.CopyOut? then |out| == part.size && Fetched(View(m.vm), part.space, part.va, out) else out == []
  {
    out, part := [], op;
    match op {
      case Touch(sp, va) =>
        var f;
        ok, f := m.AllocPage(KeyAt(sp, va % VA_SPAN));
      case Squeeze(sp, room) =>
        ok := m.Shrink(m.vm.groupOf[sp], room);
      case CopyIn(sp, va, bytes) =>
        var done := CopyToUser(m, sp, va, bytes);
        ok := done == |bytes|;
        part := CopyIn(sp, va, bytes[..done]);
        assert ok ==> bytes[..done] == bytes;
      case CopyOut(sp, va, size) =>
        out := CopyFromUser(m, sp, va, size);
        ok := |out| == size;
        part := CopyOut(sp, va, |out|);
    }
  }

  /** Paging is transparent: over any run, whatever is evicted and brought back, user memory is what the copies
      made it and copies out return it. A run is cut short only where memory runs out, part-way through the last
      operation done. */
  method Run(m: Memory, ops: seq<Op>) returns (ok: bool, outs: seq<seq<Byte>>, ghost done: seq<Op>)
    requires m.Valid() && forall i :: 0 <= i < |ops| ==> ops[i].space in m.vm.groupOf
    requires forall i :: 0 <= i < |ops| && ops[i].CopyIn? ==> |ops[i].bytes| <= VA_SPAN
    modifies m
    ensures m.Valid() && |outs| == |done| <= |ops| && Remembers(old(View(m.vm)), View(m.vm), done)
    ensures ReadsOk(old(View(m.vm)), done, outs)
    ensures forall i :: 0 <= i < |done| - 1 ==> done[i] == ops[i]
    ensures if ok then done == ops else done != [] && PartOf(done[|done| - 1], ops[|done| - 1])
    ensures !ok ==> m.vm.groupOf == old(m.vm).groupOf && Unable(m, ops[|done| - 1])
  {
    ghost var v := View(m.vm);
    ok, outs, done := true, [], [];
    for i := 0 to |ops|
      invariant m.Valid() && m.vm.groupOf == old(m.vm).groupOf && ok && done == ops[..i] && |outs| == i
      invariant Remembers(v, View(m.vm), done)
      invariant ReadsOk(v, done, outs)
    {
      ghost var v1 := View(m.vm);
      var out;
      ghost var part;
      ok, out, part := Apply(m, ops[i]);
      RemembersMore(v, v1, View(m.vm), done, part);
      if part.CopyOut? { FetchedIsLatest(v, View(m.vm), done, part, out); }
      ReadsMore(v, done, outs, part, out);
      done, outs := done + [part], outs + [out];
      if !ok {
        return;
      }
    }
  }
}
