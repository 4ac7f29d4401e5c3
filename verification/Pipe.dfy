/** The zero-copy pipe: pages move from the giver's page table to the taker's without being copied. All
    pages are resident. */
module Pipe {
  import opened Common

  type Content = seq<int>

  /** A virtual page of a process, by its aligned address. */
  datatype Spot = Spot(pid: Pid, va: nat)

  /** What a frame in use is for: mapped at one place, or queued in the pipe. */
  datatype Role = At(spot: Spot) | InPipe

  datatype Item = Item(frame: Frame, content: Content)

  /** Page tables, frame contents, the frames in use, and the pipe's queue of segments. */
  datatype World = World(maps: map<Spot, Frame>, ram: map<Frame, Content>, role: map<Frame, Role>, segments: seq<Frame>)

  ghost predicate Holds(w: World, f: Frame, r: Role) { f in w.role && w.role[f] == r && f in w.ram }

  ghost predicate SpotOk(w: World, s: Spot) { s in w.maps ==> Holds(w, w.maps[s], At(s)) }

  ghost predicate FrameOk(w: World, f: Frame) {
    f in w.role ==>
      match w.role[f]
      case At(s) => s in w.maps && w.maps[s] == f
      case InPipe => f in w.segments
  }

  /** Every frame in use has one place: at most one mapping, or one position in the queue. */
  ghost predicate Sound(w: World) {
    && (forall s :: SpotOk(w, s)) && (forall f :: FrameOk(w, f))
    && (forall i :: 0 <= i < |w.segments| ==> Holds(w, w.segments[i], InPipe))
    && (forall i, j :: 0 <= i < j < |w.segments| ==> w.segments[i] != w.segments[j])
  }

  /** No frame is mapped twice, and no queued frame is mapped at all. */
  lemma NeverTwice(w: World, s: Spot, t: Spot, i: nat)
    requires Sound(w) && s in w.maps && t in w.maps && i < |w.segments|
    ensures w.maps[s] == w.maps[t] ==> s == t
    ensures w.maps[s] != w.segments[i]
  {
    assert SpotOk(w, s) && SpotOk(w, t) && Holds(w, w.segments[i], InPipe);
  }

  /** The queued pages in order, as they are now. */
  ghost function Queued(w: World): seq<Item> {
    seq<Item>(|w.segments|, i requires 0 <= i < |w.segments| =>
      Item(w.segments[i], if w.segments[i] in w.ram then w.ram[w.segments[i]] else []))
  }

  // ---- steps ----

  /** A page leaves its page table and joins the queue. */
  function Given(w: World, s: Spot): World
    requires s in w.maps
  {
    var f := w.maps[s];
    w.(maps := w.maps - {s}, role := w.role[f := InPipe], segments := w.segments + [f])
  }

  /** A spot loses its mapping, and the frame is freed. */
  function Cleared(w: World, s: Spot): World {
    if s in w.maps then w.(maps := w.maps - {s}, role := w.role - {w.maps[s]}) else w
  }

  /** The first queued page is mapped at an empty spot. */
  function Installed(w: World, s: Spot): World
    requires w.segments != []
  {
    var f := w.segments[0];
    w.(maps := w.maps[s := f], role := w.role[f := At(s)], segments := w.segments[1..])
  }

  /** A fresh frame is mapped at an empty spot. */
  function Mapped(w: World, s: Spot, f: Frame, c: Content): World {
    w.(maps := w.maps[s := f], role := w.role[f := At(s)], ram := w.ram[f := c])
  }

  /** A process writes a page it has mapped. */
  function Stored(w: World, s: Spot, c: Content): World
    requires s in w.maps
  {
    w.(ram := w.ram[w.maps[s] := c])
  }

  lemma GivenSound(w: World, s: Spot)
    requires Sound(w) && s in w.maps
    ensures Sound(Given(w, s)) && w.maps[s] in w.ram
    ensures Queued(Given(w, s)) == Queued(w) + [Item(w.maps[s], w.ram[w.maps[s]])]
  {
    var f := w.maps[s];
    var v := Given(w, s);
    assert SpotOk(w, s) && Holds(w, f, At(s));
    forall t ensures SpotOk(v, t) { assert SpotOk(w, t); }
    forall g ensures FrameOk(v, g) { assert FrameOk(w, g); }
    forall i | 0 <= i < |w.segments| ensures w.segments[i] != f { assert Holds(w, w.segments[i], InPipe); }
  }

  lemma ClearedSound(w: World, s: Spot)
    requires Sound(w)
    ensures Sound(Cleared(w, s)) && Queued(Cleared(w, s)) == Queued(w) && s !in Cleared(w, s).maps
  {
    var v := Cleared(w, s);
    assert SpotOk(w, s);
    forall t ensures SpotOk(v, t) { assert SpotOk(w, t); }
    forall g ensures FrameOk(v, g) { assert FrameOk(w, g); }
    forall i | 0 <= i < |v.segments| ensures Holds(v, v.segments[i], InPipe) { assert Holds(w, w.segments[i], InPipe); }
  }

  lemma InstalledSound(w: World, s: Spot)
    requires Sound(w) && w.segments != [] && s !in w.maps
    ensures Sound(Installed(w, s)) && w.segments[0] in w.ram
    ensures Queued(w) == [Item(w.segments[0], w.ram[w.segments[0]])] + Queued(Installed(w, s))
  {
    var f := w.segments[0];
    var v := Installed(w, s);
    assert Holds(w, f, InPipe);
    forall t ensures SpotOk(v, t) { assert SpotOk(w, t); }
    forall g ensures FrameOk(v, g) {
      assert FrameOk(w, g);
      if g in w.segments && g != f {
        var i :| 0 <= i < |w.segments| && w.segments[i] == g;
        assert v.segments[i - 1] == g;
      }
    }
    forall i | 0 <= i < |v.segments| ensures Holds(v, v.segments[i], InPipe) {
      assert Holds(w, w.segments[i + 1], InPipe);
    }
  }

  lemma MappedSound(w: World, s: Spot, f: Frame, c: Content)
    requires Sound(w) && s !in w.maps && f !in w.role
    ensures Sound(Mapped(w, s, f, c)) && Queued(Mapped(w, s, f, c)) == Queued(w)
  {
    var v := Mapped(w, s, f, c);
    forall t ensures SpotOk(v, t) { assert SpotOk(w, t); }
    forall g ensures FrameOk(v, g) { assert FrameOk(w, g); }
    forall i | 0 <= i < |v.segments| ensures Holds(v, v.segments[i], InPipe) && v.segments[i] != f {
      assert Holds(w, w.segments[i], InPipe);
    }
  }

  lemma StoredSound(w: World, s: Spot, c: Content)
    requires Sound(w) && s in w.maps
    ensures Sound(Stored(w, s, c)) && Queued(Stored(w, s, c)) == Queued(w)
  {
    var v := Stored(w, s, c);
    assert SpotOk(w, s);
    forall t ensures SpotOk(v, t) { assert SpotOk(w, t); }
    forall g ensures FrameOk(v, g) { assert FrameOk(w, g); }
    forall i | 0 <= i < |v.segments| ensures Holds(v, v.segments[i], InPipe) && v.segments[i] != w.maps[s] {
      assert Holds(w, w.segments[i], InPipe);
    }
  }

  /** The i-th page from va on. */
  function SpotAt(pid: Pid, va: nat, i: nat): Spot { Spot(pid, va + i * PAGE_SIZE) }

  /** How many pages from va on are mapped, up to n. */
  function Reach(maps: map<Spot, Frame>, pid: Pid, va: nat, n: nat): (k: nat)
    ensures k <= n && (k < n ==> SpotAt(pid, va, k) !in maps)
    ensures forall i :: 0 <= i < k ==> SpotAt(pid, va, i) in maps
  {
    if n == 0 then 0
    else
      var k := Reach(maps, pid, va, n - 1);
      if k == n - 1 && SpotAt(pid, va, k) in maps then n else k
  }

  lemma ReachIs(maps: map<Spot, Frame>, pid: Pid, va: nat, n: nat, k: nat)
    requires k <= n && (k < n ==> SpotAt(pid, va, k) !in maps)
    requires forall i :: 0 <= i < k ==> SpotAt(pid, va, i) in maps
    ensures Reach(maps, pid, va, n) == k
  {
    var r := Reach(maps, pid, va, n);
    assert k < r ==> SpotAt(pid, va, k) in maps;
  }

  ghost function ItemAt(w: World, s: Spot): Item {
    if s in w.maps && w.maps[s] in w.ram then Item(w.maps[s], w.ram[w.maps[s]]) else Item(0, [])
  }

  /** The first k pages from va on, in order. */
  ghost function Items(w: World, pid: Pid, va: nat, k: nat): seq<Item> {
    seq<Item>(k, i requires 0 <= i < k => ItemAt(w, SpotAt(pid, va, i)))
  }

  /** w after the first k pages from va on have been given. */
  ghost predicate GaveUpTo(w0: World, w: World, pid: Pid, va: nat, k: nat) {
    && w.ram == w0.ram && Queued(w) == Queued(w0) + Items(w0, pid, va, k)
    && (forall i :: 0 <= i < k ==> SpotAt(pid, va, i) in w0.maps && SpotAt(pid, va, i) !in w.maps)
    && (forall s :: s in w.maps ==> s in w0.maps && w.maps[s] == w0.maps[s])
    && (forall s :: s in w0.maps && s !in w.maps ==> exists i :: 0 <= i < k && s == SpotAt(pid, va, i))
  }

  lemma GiveNext(w0: World, w: World, pid: Pid, va: nat, k: nat)
    requires Sound(w) && GaveUpTo(w0, w, pid, va, k)
    ensures SpotAt(pid, va, k) in w.maps <==> SpotAt(pid, va, k) in w0.maps
    ensures SpotAt(pid, va, k) in w.maps ==> GaveUpTo(w0, Given(w, SpotAt(pid, va, k)), pid, va, k + 1)
  {
    var s := SpotAt(pid, va, k);
    assert forall i :: 0 <= i < k ==> s != SpotAt(pid, va, i);
    if s in w.maps {
      GivenSound(w, s);
      var v := Given(w, s);
      assert Items(w0, pid, va, k + 1) == Items(w0, pid, va, k) + [ItemAt(w0, s)];
      forall t | t in w0.maps && t !in v.maps ensures exists i :: 0 <= i < k + 1 && t == SpotAt(pid, va, i) {
        if t == s { assert t == SpotAt(pid, va, k); }
      }
    }
  }

  /** w after the first k queued pages have been mapped from va on. */
  ghost predicate TookUpTo(w0: World, w: World, pid: Pid, va: nat, k: nat) {
    && k <= |w0.segments| && w.segments == w0.segments[k..] && w.ram == w0.ram && Queued(w0)[k..] == Queued(w)
    && (forall i :: 0 <= i < k ==> SpotAt(pid, va, i) in w.maps && w.maps[SpotAt(pid, va, i)] == w0.segments[i])
    && (forall s :: (forall i :: 0 <= i < k ==> s != SpotAt(pid, va, i)) ==>
          (s in w.maps <==> s in w0.maps) && (s in w.maps ==> w.maps[s] == w0.maps[s]))
  }

  lemma TakeNext(w0: World, w: World, pid: Pid, va: nat, k: nat)
    requires Sound(w) && TookUpTo(w0, w, pid, va, k) && w.segments != []
    ensures var s := SpotAt(pid, va, k);
      && Sound(Installed(Cleared(w, s), s)) && TookUpTo(w0, Installed(Cleared(w, s), s), pid, va, k + 1)
    ensures Queued(w) != [] && Queued(w0)[..k] + [Queued(w)[0]] == Queued(w0)[..k + 1]
  {
    var s := SpotAt(pid, va, k);
    assert forall i :: 0 <= i < k ==> s != SpotAt(pid, va, i);
    ClearedSound(w, s);
    InstalledSound(Cleared(w, s), s);
    var v := Installed(Cleared(w, s), s);
    assert Queued(w0)[k + 1..] == Queued(w)[1..];
    forall t | forall i :: 0 <= i < k + 1 ==> t != SpotAt(pid, va, i)
      ensures (t in v.maps <==> t in w0.maps) && (t in v.maps ==> v.maps[t] == w0.maps[t])
    {
      assert t != SpotAt(pid, va, k);
    }
  }

  /** The k pages from va on are exactly those whose addresses lie in the next k * 4096 bytes, in order. */
  lemma SpotsCover(pid: Pid, va: nat, k: nat, s: Spot)
    requires va % 4096 == 0 && s.va % 4096 == 0
    ensures (exists i :: 0 <= i < k && s == SpotAt(pid, va, i)) <==> s.pid == pid && va <= s.va < va + k * 4096
  {
    if s.pid == pid && va <= s.va < va + k * 4096 {
      var i := (s.va - va) / 4096;
      assert s == SpotAt(pid, va, i);
    }
  }

  /** A giver loses the mapped pages in that range, and nobody loses any other. */
  lemma GivenRange(w0: World, w: World, pid: Pid, va: nat, k: nat, s: Spot)
    requires GaveUpTo(w0, w, pid, va, k) && va % 4096 == 0 && s.va % 4096 == 0
    ensures s in w0.maps && s !in w.maps <==> s.pid == pid && va <= s.va < va + k * 4096
  {
    SpotsCover(pid, va, k, s);
  }

  /** A taker has the pages in that range, one queued frame each in their order, and nobody else has another page
      than before. */
  lemma TakenRange(w0: World, w: World, pid: Pid, va: nat, k: nat, s: Spot)
    requires TookUpTo(w0, w, pid, va, k) && va % 4096 == 0 && s.va % 4096 == 0
    ensures if s.pid == pid && va <= s.va < va + k * 4096
      then (s.va - va) / 4096 < k && s in w.maps && w.maps[s] == w0.segments[(s.va - va) / 4096]
      else (s in w.maps <==> s in w0.maps) && (s in w.maps ==> w.maps[s] == w0.maps[s])
  {
    SpotsCover(pid, va, k, s);
    if s.pid == pid && va <= s.va < va + k * 4096 {
      assert s == SpotAt(pid, va, (s.va - va) / 4096);
    }
  }

  /** A call to take pages that has not returned: where to, how much, and how much has come. */
  datatype Taking = Taking(dest: nat, length: nat, done: nat) {
    predicate Open() { dest % PAGE_SIZE == 0 && length % PAGE_SIZE == 0 && done % PAGE_SIZE == 0 && done < length }

    /** The pages still to come. */
    function Rest(): nat
      requires Open()
    {
      (length - done) / PAGE_SIZE
    }
  }

  /** The pipe and its users between two steps. */
  datatype State = State(w: World, used: bool, waiters: seq<Pid>, takers: map<Pid, Taking>, given: seq<Item>,
                         taken: seq<Item>)

  datatype Event =
    | Give(pid: Pid, src: nat, length: nat, records: nat)
    | Take(pid: Pid, dest: nat, length: nat)
    | Resume(pid: Pid)
    | Fresh(s: Spot, f: Frame, c: Content)
    | Write(s: Spot, c: Content)
    | OpenPipe
    | ClosePipe

  predicate Aligned(a: nat, length: nat) { a % PAGE_SIZE == 0 && length % PAGE_SIZE == 0 }

  /** A giver moves the pages that are mapped from src on, as far as records can be had, and wakes every taker. */
  ghost predicate Gave(x: State, pid: Pid, src: nat, length: nat, records: nat, r: Option<int>, y: State) {
    if !x.used || !Aligned(src, length) then r == Some(-1) && y == x
    else
      var k := Reach(x.w.maps, pid, src, Min(length / PAGE_SIZE, records));
      && r == Some(if length > 0 && k == 0 then -1 else k * PAGE_SIZE) && GaveUpTo(x.w, y.w, pid, src, k)
      && y == x.(w := y.w, given := x.given + Items(x.w, pid, src, k), waiters := if k > 0 then [] else x.waiters)
  }

  /** A taker goes on: it maps queued pages in order, and returns with all it wanted, waits for more, or, on a closed
      pipe, returns with what it has. */
  ghost predicate WentOn(x: State, pid: Pid, t: Taking, r: Option<int>, y: State)
    requires t.Open()
  {
    if !x.used then r == Some(if t.done == 0 then -1 else t.done) && y == x.(takers := x.takers - {pid})
    else
      var k := Min(t.Rest(), |x.w.segments|);
      && TookUpTo(x.w, y.w, pid, t.dest + t.done, k)
      && if k == t.Rest()
         then r == Some(t.length) && y == x.(w := y.w, taken := x.taken + Queued(x.w)[..k], takers := x.takers - {pid})
         else r == None && y == x.(w := y.w, taken := x.taken + Queued(x.w)[..k], waiters := x.waiters + [pid],
                                   takers := x.takers[pid := t.(done := t.done + k * PAGE_SIZE)])
  }

  /** The meaning of one step, with what the call returned if one did. A process inside a call to take makes no other. */
  ghost predicate Stepped(x: State, e: Event, r: Option<int>, y: State) {
    match e
    case Give(pid, src, length, records) =>
      if pid in x.takers then r == None && y == x else Gave(x, pid, src, length, records, r, y)
    case Take(pid, dest, length) =>
      if pid in x.takers then r == None && y == x
      else if !x.used || !Aligned(dest, length) then r == Some(-1) && y == x
      else if length == 0 then r == Some(0) && y == x
      else WentOn(x, pid, Taking(dest, length, 0), r, y)
    case Resume(pid) =>
      if pid in x.takers && pid !in x.waiters && x.takers[pid].Open() then WentOn(x, pid, x.takers[pid], r, y)
      else r == None && y == x
    case Fresh(s, f, c) => r == None && y == if s !in x.w.maps && f !in x.w.role then x.(w := Mapped(x.w, s, f, c)) else x
    case Write(s, c) => r == None && y == if s in x.w.maps then x.(w := Stored(x.w, s, c)) else x
    case OpenPipe => r == None && y == if x.used then x else x.(used := true, waiters := [], given := [], taken := [])
    case ClosePipe =>
      && r == None && y == x.(w := y.w, used := false, waiters := [])
      && y.w.maps == x.w.maps && y.w.ram == x.w.ram && y.w.segments == []
  }

  lemma TakersTwice(takers: map<Pid, Taking>, pid: Pid, a: Taking, b: Taking)
    requires pid !in takers
    ensures takers[pid := a][pid := b] == takers[pid := b] && takers[pid := a] - {pid} == takers
  {
  }

  /** Nothing is taken that was not given, in order and content; on an open pipe the rest is what is queued. */
  ghost predicate InOrder(x: State) {
    && Sound(x.w) && x.taken <= x.given && (x.used ==> x.given == x.taken + Queued(x.w))
    && (x.waiters != [] ==> x.w.segments == [])
  }

  /** The first segment is freed. */
  function Dropped(w: World): World
    requires w.segments != []
  {
    w.(role := w.role - {w.segments[0]}, segments := w.segments[1..])
  }

  lemma DroppedSound(w: World)
    requires Sound(w) && w.segments != []
    ensures Sound(Dropped(w))
  {
    var f := w.segments[0];
    var v := Dropped(w);
    assert Holds(w, f, InPipe);
    forall t ensures SpotOk(v, t) { assert SpotOk(w, t); }
    forall g ensures FrameOk(v, g) {
      assert FrameOk(w, g);
      if g in w.segments && g != f {
        var i :| 0 <= i < |w.segments| && w.segments[i] == g;
        assert v.segments[i - 1] == g;
      }
    }
    forall i | 0 <= i < |v.segments| ensures Holds(v, v.segments[i], InPipe) {
      assert Holds(w, w.segments[i + 1], InPipe);
    }
  }

  /** The i-th page given stands i-th in a queue that was empty. */
  lemma GaveFrame(w0: World, w: World, pid: Pid, va: nat, k: nat, i: nat)
    requires Sound(w0) && w0.segments == [] && GaveUpTo(w0, w, pid, va, k) && i < k
    ensures i < |w.segments| && w.segments[i] == w0.maps[SpotAt(pid, va, i)]
  {
    assert SpotOk(w0, SpotAt(pid, va, i));
    assert Queued(w)[i] == Items(w0, pid, va, k)[i];
  }

  class PipeEntry {
    var w: World
    var used: bool
    var bufferedBytes: nat
    var waiters: seq<Pid>           // takers blocked on the empty pipe
    var takers: map<Pid, Taking>    // processes inside a call to take pages
    ghost var given: seq<Item>
    ghost var taken: seq<Item>

    /** The pages taken so far, then those queued, are exactly the pages given, in order and with the content
        they had when given. The byte count is that of the queue, and nobody waits while a page is queued. */
    ghost predicate Valid()
      reads this
    {
      && Sound(w) && bufferedBytes == PAGE_SIZE * |w.segments| && (waiters != [] ==> w.segments == [])
      && (forall p :: p in takers ==> takers[p].Open()) && (forall p :: p in waiters ==> p in takers)
      && if used then given == taken + Queued(w) else w.segments == [] && taken <= given
    }

    ghost function Now(): State
      reads this
    {
      State(w, used, waiters, takers, given, taken)
    }

    constructor ()
      ensures Valid() && Now() == State(World(map[], map[], map[], []), false, [], map[], [], [])
    {
      w := World(map[], map[], map[], []);
      used, bufferedBytes, waiters, takers := false, 0, [], map[];
      given, taken := [], [];
    }

    /** Gives the pages of [src, src + length) as far as they are mapped and segment records can be had. */
    method GivePages(pid: Pid, src: nat, length: nat, records: nat) returns (r: int)
      requires Valid()
      modifies this
      ensures Valid() && Gave(old(Now()), pid, src, length, records, Some(r), Now())
    {
      if !used || src % PAGE_SIZE != 0 || length % PAGE_SIZE != 0 {
        return -1;
      }
      assert GaveUpTo(w, w, pid, src, 0);
      if length == 0 {
        return 0;
      }
      var n := length / PAGE_SIZE;
      var k := 0;
      while k < n && SpotAt(pid, src, k) in w.maps && k < records
        invariant 0 <= k <= n && k <= records && Valid() && used && taken == old(taken) && takers == old(takers)
        invariant GaveUpTo(old(w), w, pid, src, k) && given == old(given) + Items(old(w), pid, src, k)
        invariant waiters == if k > 0 then [] else old(waiters)
      {
        GiveNext(old(w), w, pid, src, k);
        Push(SpotAt(pid, src, k), pid, src, k, old(w), old(given));
        k := k + 1;
      }
      GiveNext(old(w), w, pid, src, k);
      ReachIs(old(w).maps, pid, src, Min(n, records), k);
      r := if k == 0 then -1 else k * PAGE_SIZE;
    }

    /** Detaches one page from the giver and queues it, waking every taker. */
    method Push(s: Spot, ghost pid: Pid, ghost src: nat, ghost k: nat, ghost w0: World, ghost given0: seq<Item>)
      requires Valid() && used && s in w.maps && s == SpotAt(pid, src, k)
      requires GaveUpTo(w0, w, pid, src, k) && given == given0 + Items(w0, pid, src, k)
      modifies this
      ensures Valid() && used && taken == old(taken) && takers == old(takers) && w == Given(old(w), s) && waiters == []
      ensures given == given0 + Items(w0, pid, src, k + 1)
    {
      GivenSound(w, s);
      assert Items(w0, pid, src, k + 1) == Items(w0, pid, src, k) + [ItemAt(w0, s)];
      given := given + [Item(w.maps[s], w.ram[w.maps[s]])];
      w := Given(w, s);
      bufferedBytes := bufferedBytes + PAGE_SIZE;
      waiters := [];
    }

    /** A call to take length bytes of pages: it returns at once, or enters its loop. */
    method TakePages(pid: Pid, dest: nat, length: nat) returns (r: Option<int>)
      requires Valid() && pid !in takers
      modifies this
      ensures Valid() && Stepped(old(Now()), Take(pid, dest, length), r, Now())
    {
      if !used || dest % PAGE_SIZE != 0 || length % PAGE_SIZE != 0 {
        return Some(-1);
      }
      if length == 0 {
        return Some(0);
      }
      ghost var was := takers;
      var t := Taking(dest, length, 0);
      takers := takers[pid := t];
      r := GoOn(pid);
      TakersTwice(was, pid, t, if pid in takers then takers[pid] else t);
    }

    /** The loop of a taker that is not blocked, up to its return or its next wait. */
    method GoOn(pid: Pid) returns (r: Option<int>)
      requires Valid() && pid in takers && pid !in waiters
      modifies this
      ensures Valid() && WentOn(old(Now()), pid, old(takers)[pid], r, Now())
    {
      var t := takers[pid];
      if !used {
        takers := takers - {pid};
        return Some(if t.done == 0 then -1 else t.done);
      }
      var n := (t.length - t.done) / PAGE_SIZE;
      var k := PopPages(pid, t.dest + t.done, n);
      if k == n {
        takers := takers - {pid};
        r := Some(t.length);
      } else {
        waiters := waiters + [pid];
        takers := takers[pid := t.(done := t.done + k * PAGE_SIZE)];
        r := None;
      }
    }

    /** Maps up to n queued pages from an address on, in order. */
    method PopPages(pid: Pid, at: nat, n: nat) returns (k: nat)
      requires Valid() && used
      modifies this
      ensures Valid() && k == Min(n, |old(w).segments|) && TookUpTo(old(w), w, pid, at, k)
      ensures Now() == old(Now()).(w := w, taken := old(taken) + Queued(old(w))[..k])
    {
      k := 0;
      assert TookUpTo(w, w, pid, at, 0);
      while k < n && w.segments != []
        invariant 0 <= k <= n && Valid() && TookUpTo(old(w), w, pid, at, k)
        invariant Now() == old(Now()).(w := w, taken := old(taken) + Queued(old(w))[..k])
      {
        TakeNext(old(w), w, pid, at, k);
        PopTo(SpotAt(pid, at, k));
        k := k + 1;
      }
    }

    /** Takes the first segment off the queue and maps its page at s, freeing what was mapped there. */
    method PopTo(s: Spot)
      requires Valid() && used && w.segments != []
      modifies this
      ensures Valid() && used && given == old(given) && waiters == old(waiters) && takers == old(takers)
      ensures w == Installed(Cleared(old(w), s), s) && Queued(old(w)) != [] && taken == old(taken) + [Queued(old(w))[0]]
    {
      ClearedSound(w, s);
      InstalledSound(Cleared(w, s), s);
      taken := taken + [Queued(w)[0]];
      w := Installed(Cleared(w, s), s);
      bufferedBytes := bufferedBytes - PAGE_SIZE;
    }

    /** Opens the pipe afresh. */
    method Open()
      requires Valid() && !used
      modifies this
      ensures Valid() && Now() == old(Now()).(used := true, waiters := [], given := [], taken := [])
    {
      used, bufferedBytes, waiters := true, 0, [];
      given, taken := [], [];
    }

    /** Drops the queue, freeing its frames, and wakes every taker. */
    method Close()
      requires Valid()
      modifies this
      ensures Valid() && Stepped(old(Now()), ClosePipe, None, Now())
    {
      while w.segments != []
        invariant Sound(w) && w.maps == old(w).maps && w.ram == old(w).ram && bufferedBytes == PAGE_SIZE * |w.segments|
        invariant Now() == old(Now()).(w := w)
        decreases |w.segments|
      {
        DroppedSound(w);
        w := Dropped(w);
        bufferedBytes := bufferedBytes - PAGE_SIZE;
      }
      waiters := [];
      used := false;
    }

    /** A process gets a fresh page somewhere. */
    method MapPage(s: Spot, f: Frame, c: Content)
      requires Valid() && s !in w.maps && f !in w.role
      modifies this`w
      ensures Valid() && w == Mapped(old(w), s, f, c)
    {
      MappedSound(w, s, f, c);
      w := Mapped(w, s, f, c);
    }

    /** A process writes one of its pages; no queued page changes. */
    method Store(s: Spot, c: Content)
      requires Valid() && s in w.maps
      modifies this`w
      ensures Valid() && w == Stored(old(w), s, c)
    {
      StoredSound(w, s, c);
      w := Stored(w, s, c);
    }

    /** Giving pages into an empty pipe and taking them elsewhere: the taker sees the giver's bytes in the
        giver's own frames, and the giver has the pages no more. */
    method Transfer(from: Pid, src: nat, to: Pid, dest: nat, length: nat, records: nat)
      requires Valid() && used && w.segments == [] && from != to && to !in takers
      requires Aligned(src, length) && dest % PAGE_SIZE == 0
      modifies this
      ensures Valid() && w.ram == old(w).ram
      ensures var k := Reach(old(w).maps, from, src, Min(length / PAGE_SIZE, records));
        forall i :: 0 <= i < k ==>
          && SpotAt(to, dest, i) in w.maps && SpotAt(from, src, i) !in w.maps
          && w.maps[SpotAt(to, dest, i)] == old(w).maps[SpotAt(from, src, i)]
    {
      var sent := GivePages(from, src, length, records);
      ghost var mid := w;
      ghost var k := Reach(old(w).maps, from, src, Min(length / PAGE_SIZE, records));
      assert |Queued(mid)| == k;
      forall i | 0 <= i < k ensures mid.segments[i] == old(w).maps[SpotAt(from, src, i)] {
        GaveFrame(old(w), mid, from, src, k, i);
      }
      var got := TakePages(to, dest, length);
      assert forall i :: 0 <= i < k ==> SpotAt(from, src, i) !in mid.maps;
    }

    /** Any step of any process. */
    method Apply(e: Event) returns (r: Option<int>)
      requires Valid()
      modifies this
      ensures Valid() && Stepped(old(Now()), e, r, Now())
    {
      r := None;
      match e
      case Give(pid, src, length, records) =>
        if pid !in takers {
          var n := GivePages(pid, src, length, records);
          r := Some(n);
        }
      case Take(pid, dest, length) => if pid !in takers { r := TakePages(pid, dest, length); }
      case Resume(pid) => if pid in takers && pid !in waiters { r := GoOn(pid); }
      case Fresh(s, f, c) => if s !in w.maps && f !in w.role { MapPage(s, f, c); }
      case Write(s, c) => if s in w.maps { Store(s, c); }
      case OpenPipe => if !used { Open(); }
      case ClosePipe => Close();
    }

    /** Over every run of givers, takers and writers each call does and returns what its meaning says, and what has
        been taken is a prefix, in order and content, of what was given. */
    method Run(es: seq<Event>) returns (outs: seq<Option<int>>, ghost seen: seq<State>)
      requires Valid()
      modifies this
      ensures Valid() && |outs| == |es| && |seen| == |es| + 1 && seen[0] == old(Now()) && seen[|es|] == Now()
      ensures forall i :: 0 <= i < |es| ==> Stepped(seen[i], es[i], outs[i], seen[i + 1])
      ensures forall i :: 0 <= i <= |es| ==> InOrder(seen[i])
    {
      outs, seen := [], [Now()];
      for i := 0 to |es|
        invariant Valid() && |outs| == i && |seen| == i + 1 && seen[0] == old(Now()) && seen[i] == Now()
        invariant forall k :: 0 <= k < i ==> Stepped(seen[k], es[k], outs[k], seen[k + 1])
        invariant forall k :: 0 <= k <= i ==> InOrder(seen[k])
      {
        var r := Apply(es[i]);
        outs, seen := outs + [r], seen + [Now()];
      }
    }
  }
}
