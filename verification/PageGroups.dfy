/** Page-frame groups: who owns each frame, and how the quotas are split up. */
module PageGroups {
  import opened Common

  const NUM_MAX_PAGEGROUP := 64

  /** A group: its quota, its count of frames, the page directories that use it, and its list of frames with
      the latest first. A group nobody uses is free. */
  datatype Group = Group(capacity: nat, used: int, refcount: int, pages: seq<Frame>) {
    function Live(): nat { if refcount > 0 then capacity else 0 }
  }

  datatype Books = Books(groups: seq<Group>, owner: map<Frame, nat>)

  predicate Owns(b: Books, i: nat, f: Frame) { f in b.owner && b.owner[f] == i }

  /** The count is the length of the list, the list has no repeats, and its frames name this group. */
  ghost predicate GroupOk(b: Books, i: nat) {
    i < |b.groups| ==>
      && b.groups[i].used == |b.groups[i].pages| && Distinct(b.groups[i].pages)
      && forall f :: f in b.groups[i].pages ==> Owns(b, i, f)
  }

  ghost predicate FrameOk(b: Books, f: Frame) {
    f in b.owner ==> b.owner[f] < |b.groups| && f in b.groups[b.owner[f]].pages
  }

  /** Every owned frame is on exactly one list, once. */
  ghost predicate Balanced(b: Books) {
    |b.groups| == NUM_MAX_PAGEGROUP && (forall i :: GroupOk(b, i)) && (forall f :: FrameOk(b, f))
  }

  ghost predicate InQuota(b: Books, i: nat) { i < |b.groups| ==> b.groups[i].used <= b.groups[i].capacity }

  /** Every group, but perhaps g, is within its quota. */
  ghost predicate QuotaBut(b: Books, g: nat) { forall i :: i != g ==> InQuota(b, i) }

  ghost predicate QuotaOk(b: Books) { forall i :: InQuota(b, i) }

  /** Takes the k-th frame of group g off its list. */
  function Detached(b: Books, g: nat, k: nat): Books
    requires g < |b.groups| && k < |b.groups[g].pages|
  {
    var r := b.groups[g];
    Books(b.groups[g := r.(used := r.used - 1, pages := Without(r.pages, k))], b.owner - {r.pages[k]})
  }

  /** Puts an unowned frame at the front of group g's list. */
  function Attached(b: Books, g: nat, f: Frame): Books
    requires g < |b.groups|
  {
    var r := b.groups[g];
    Books(b.groups[g := r.(used := r.used + 1, pages := [f] + r.pages)], b.owner[f := g])
  }

  lemma DetachedBalanced(b: Books, g: nat, k: nat)
    requires Balanced(b) && g < |b.groups| && k < |b.groups[g].pages|
    ensures Balanced(Detached(b, g, k))
  {
    var c := Detached(b, g, k);
    assert GroupOk(b, g) && Owns(b, g, b.groups[g].pages[k]);
    WithoutMembers(b.groups[g].pages, k);
    forall i ensures GroupOk(c, i) { assert GroupOk(b, i); }
    forall f ensures FrameOk(c, f) { assert FrameOk(b, f); }
  }

  lemma AttachedBalanced(b: Books, g: nat, f: Frame)
    requires Balanced(b) && g < |b.groups| && f !in b.owner
    ensures Balanced(Attached(b, g, f))
  {
    var c := Attached(b, g, f);
    assert GroupOk(b, g);
    assert f !in b.groups[g].pages;
    forall i ensures GroupOk(c, i) { assert GroupOk(b, i); }
    forall x ensures FrameOk(c, x) { assert FrameOk(b, x); }
  }

  /** Changing a group's quota or its users leaves the lists alone. */
  lemma QuotaBalanced(b: Books, g: nat, r: Group)
    requires Balanced(b) && g < |b.groups| && r.used == b.groups[g].used && r.pages == b.groups[g].pages
    ensures Balanced(b.(groups := b.groups[g := r]))
  {
    var c := b.(groups := b.groups[g := r]);
    forall i ensures GroupOk(c, i) { assert GroupOk(b, i); }
    forall x ensures FrameOk(c, x) { assert FrameOk(b, x); }
  }

  // ---- quotas ----

  /** The quotas of the groups in use, together. */
  function LiveSum(gs: seq<Group>): nat {
    if gs == [] then 0 else LiveSum(gs[..|gs| - 1]) + gs[|gs| - 1].Live()
  }

  lemma {:induction false} LiveSumUpdate(gs: seq<Group>, i: nat, r: Group)
    requires i < |gs|
    ensures LiveSum(gs[i := r]) == LiveSum(gs) - gs[i].Live() + r.Live()
  {
    if i == |gs| - 1 {
      assert gs[i := r][..|gs| - 1] == gs[..|gs| - 1];
    } else {
      LiveSumUpdate(gs[..|gs| - 1], i, r);
      assert gs[i := r][..|gs| - 1] == gs[..|gs| - 1][i := r];
    }
  }

  /** Free groups are empty, and the kernel's group is in use. */
  ghost predicate Tidy(gs: seq<Group>) {
    && |gs| > 0 && gs[0].refcount >= 1
    && forall i :: 0 <= i < |gs| ==> gs[i].refcount >= 0 && (gs[i].refcount == 0 ==> gs[i].pages == [])
  }

  // ---- trees of page tables ----

  /** What migration walks: a table with its present entries in order, or a user page. */
  datatype Tree = Page(frame: Frame) | Dir(frame: Frame, kids: seq<Tree>)

  function Dirs(t: Tree): set<Frame> {
    match t
    case Page(_) => {}
    case Dir(f, kids) => {f} + set j, x | 0 <= j < |kids| && x in Dirs(kids[j]) :: x
  }

  function Pages(t: Tree): set<Frame> {
    match t
    case Page(f) => {f}
    case Dir(_, kids) => set j, x | 0 <= j < |kids| && x in Pages(kids[j]) :: x
  }

  function Frames(t: Tree): set<Frame> { Dirs(t) + Pages(t) }

  /** No frame occurs twice in the tree. */
  predicate Proper(t: Tree) {
    t.Dir? ==>
      && (forall j :: 0 <= j < |t.kids| ==> Proper(t.kids[j]) && t.frame !in Frames(t.kids[j]))
      && (forall i, j :: 0 <= i < j < |t.kids| ==> Frames(t.kids[i]) !! Frames(t.kids[j]))
  }

  /** The tree's tables are in group g; so are those of its pages that are still present. */
  predicate Movable(b: Books, t: Tree, g: nat, leaf: set<Frame>) {
    && (forall d :: d in Dirs(t) ==> Owns(b, g, d) && d !in leaf)
    && (forall p :: p in Pages(t) ==> p in leaf && (p in b.owner ==> Owns(b, g, p)))
  }

  /** Every table of the tree, and every page of it still present, is in group g. */
  ghost predicate Moved(b: Books, t: Tree, g: nat) {
    && (forall d :: d in Dirs(t) ==> Owns(b, g, d))
    && (forall p :: p in Pages(t) ==> (p in b.owner ==> Owns(b, g, p)))
  }

  // ---- what can be evicted ----

  /** How many frames on the list are not leaf pages, so cannot be evicted. */
  function NonLeaf(pages: seq<Frame>, leaf: set<Frame>): (n: nat)
    ensures n <= |pages|
    ensures n == |pages| <==> forall k :: 0 <= k < |pages| ==> pages[k] !in leaf
  {
    if pages == [] then 0 else (if pages[0] in leaf then 0 else 1) + NonLeaf(pages[1..], leaf)
  }

  lemma {:induction false} NonLeafWithout(pages: seq<Frame>, k: nat, leaf: set<Frame>)
    requires k < |pages|
    ensures NonLeaf(Without(pages, k), leaf) == NonLeaf(pages, leaf) - if pages[k] in leaf then 0 else 1
  {
    if k == 0 {
      assert Without(pages, 0) == pages[1..];
    } else {
      NonLeafWithout(pages[1..], k - 1, leaf);
      assert Without(pages, k) == [pages[0]] + Without(pages[1..], k - 1);
    }
  }

  function Fixed(b: Books, i: nat, leaf: set<Frame>): nat {
    if i < |b.groups| then NonLeaf(b.groups[i].pages, leaf) else 0
  }

  lemma DetachedFixed(b: Books, g: nat, k: nat, leaf: set<Frame>)
    requires g < |b.groups| && k < |b.groups[g].pages|
    ensures Fixed(Detached(b, g, k), g, leaf) == Fixed(b, g, leaf) - if b.groups[g].pages[k] in leaf then 0 else 1
  {
    NonLeafWithout(b.groups[g].pages, k, leaf);
  }

  lemma AttachedFixed(b: Books, g: nat, f: Frame, leaf: set<Frame>)
    requires g < |b.groups|
    ensures Fixed(Attached(b, g, f), g, leaf) == Fixed(b, g, leaf) + if f in leaf then 0 else 1
  {
    assert ([f] + b.groups[g].pages)[1..] == b.groups[g].pages;
  }

  /** How many tables a tree has. */
  function DirCount(t: Tree): nat {
    match t
    case Page(_) => 0
    case Dir(_, kids) => 1 + KidDirs(kids, |kids|)
  }

  function KidDirs(kids: seq<Tree>, k: nat): nat
    requires k <= |kids|
  {
    if k == 0 then 0 else KidDirs(kids, k - 1) + DirCount(kids[k - 1])
  }

  /** The room migrating a tree takes at its tightest point: the tables moved so far, which stay, and the
      frame being moved. Pages moved earlier can be evicted to make it. */
  function Need(present: set<Frame>, t: Tree): nat {
    match t
    case Page(f) => if f in present then 1 else 0
    case Dir(_, kids) => Max(1, 1 + NeedKids(present, kids, |kids|))
  }

  function NeedKids(present: set<Frame>, kids: seq<Tree>, k: nat): nat
    requires k <= |kids|
  {
    if k == 0 then 0
    else
      var n := Need(present, kids[k - 1]);
      Max(NeedKids(present, kids, k - 1), if n == 0 then 0 else KidDirs(kids, k - 1) + n)
  }

  /** Only whether the tree's own frames are present matters, and fewer present need no more. */
  lemma {:induction false} NeedFewer(p: set<Frame>, q: set<Frame>, t: Tree)
    requires forall x :: x in Frames(t) && x in p ==> x in q
    ensures Need(p, t) <= Need(q, t)
    decreases t, 0
  {
    if t.Dir? { NeedKidsFewer(p, q, t, |t.kids|); }
  }

  lemma {:induction false} NeedKidsFewer(p: set<Frame>, q: set<Frame>, t: Tree, k: nat)
    requires t.Dir? && k <= |t.kids| && forall x :: x in Frames(t) && x in p ==> x in q
    ensures NeedKids(p, t.kids, k) <= NeedKids(q, t.kids, k)
    decreases t, 0, k
  {
    if k > 0 {
      NeedKidsFewer(p, q, t, k - 1);
      KidFrames(t, k - 1);
      NeedFewer(p, q, t.kids[k - 1]);
    }
  }

  lemma NeedSame(b: Books, c: Books, t: Tree)
    requires SamePresence(b, c, t)
    ensures Need(b.owner.Keys, t) == Need(c.owner.Keys, t)
  {
    NeedFewer(b.owner.Keys, c.owner.Keys, t);
    NeedFewer(c.owner.Keys, b.owner.Keys, t);
  }

  lemma {:induction false} NeedGrows(p: set<Frame>, kids: seq<Tree>, k: nat)
    requires k <= |kids|
    ensures NeedKids(p, kids, k) <= NeedKids(p, kids, |kids|)
    decreases |kids| - k
  {
    if k < |kids| { NeedGrows(p, kids, k + 1); }
  }

  /** A tree needs room for all its tables. */
  lemma {:induction false} NeedTables(p: set<Frame>, t: Tree)
    ensures DirCount(t) <= Need(p, t)
    decreases t, 0
  {
    if t.Dir? { NeedKidTables(p, t, |t.kids|); }
  }

  lemma {:induction false} NeedKidTables(p: set<Frame>, t: Tree, k: nat)
    requires t.Dir? && k <= |t.kids|
    ensures KidDirs(t.kids, k) <= NeedKids(p, t.kids, k)
    decreases t, 0, k
  {
    if k > 0 {
      NeedKidTables(p, t, k - 1);
      NeedTables(p, t.kids[k - 1]);
    }
  }

  // ---- what an operation may have done besides ----

  /** Frame x kept its owner, or was a leaf page evicted from group g. */
  ghost predicate Kept(b: Books, c: Books, g: nat, leaf: set<Frame>, x: Frame) {
    x in b.owner ==> if x in c.owner then c.owner[x] == b.owner[x] else b.owner[x] == g && x in leaf
  }

  /** No quota or user count has changed, nor any list but those of the two groups; of the frames other than
      those named, only leaf pages of group `to` may have gone, and none has come. */
  ghost predicate Only(b: Books, c: Books, from: nat, to: nat, named: set<Frame>, leaf: set<Frame>) {
    && |c.groups| == |b.groups| && c.owner.Keys <= b.owner.Keys + named
    && (forall i :: 0 <= i < |b.groups| ==> SameQuota(b, c, i) && (i != from && i != to ==> c.groups[i] == b.groups[i]))
    && (forall x :: x !in named ==> Kept(b, c, to, leaf, x))
  }

  ghost predicate SameQuota(b: Books, c: Books, i: nat) {
    i < |b.groups| == |c.groups| ==>
      c.groups[i].capacity == b.groups[i].capacity && c.groups[i].refcount == b.groups[i].refcount
  }

  lemma OnlyThen(a: Books, b: Books, c: Books, from: nat, to: nat, n1: set<Frame>, n2: set<Frame>, leaf: set<Frame>)
    requires Only(a, b, from, to, n1, leaf) && Only(b, c, from, to, n2, leaf)
    ensures Only(a, c, from, to, n1 + n2, leaf)
  {
    forall i | 0 <= i < |a.groups| ensures SameQuota(a, c, i) {
      assert SameQuota(a, b, i) && SameQuota(b, c, i);
    }
    forall x | x !in n1 + n2 ensures Kept(a, c, to, leaf, x) {
      assert Kept(a, b, to, leaf, x) && Kept(b, c, to, leaf, x);
    }
  }

  lemma SameQuotaSum(gs: seq<Group>, hs: seq<Group>)
    requires |gs| == |hs| && forall i :: 0 <= i < |gs| ==> gs[i].Live() == hs[i].Live()
    ensures LiveSum(gs) == LiveSum(hs)
  {
    if gs != [] { SameQuotaSum(gs[..|gs| - 1], hs[..|hs| - 1]); }
  }

  ghost predicate SamePresence(b: Books, c: Books,
                               t: Tree) { forall x :: x in Frames(t) ==> (x in b.owner <==> x in c.owner) }

  /** Moving the named frames does not disturb a tree they are not in. */
  lemma OthersStay(b: Books, c: Books, from: nat, to: nat, named: set<Frame>, other: Tree, leaf: set<Frame>)
    requires Only(b, c, from, to, named, leaf) && named !! Frames(other)
    ensures from != to && Movable(b, other, from, leaf) ==> Movable(c, other, from, leaf)
    ensures Moved(b, other, to) && Dirs(other) !! leaf ==> Moved(c, other, to)
    ensures from != to && Movable(b, other, from, leaf) ==> SamePresence(b, c, other)
  {
    forall x | x in Frames(other) ensures Kept(b, c, to, leaf, x) { }
    assert c.owner.Keys <= b.owner.Keys + named;
  }

  lemma KidFrames(t: Tree, j: nat)
    requires t.Dir? && j < |t.kids|
    ensures Dirs(t.kids[j]) <= Dirs(t) && Pages(t.kids[j]) <= Pages(t) && Frames(t.kids[j]) <= Frames(t)
  {
    assert forall x :: x in Dirs(t.kids[j]) ==> x in Dirs(t);
    assert forall x :: x in Pages(t.kids[j]) ==> x in Pages(t);
  }

  lemma MovedWhole(b: Books, t: Tree, g: nat)
    requires t.Dir? && Owns(b, g, t.frame) && forall j :: 0 <= j < |t.kids| ==> Moved(b, t.kids[j], g)
    ensures Moved(b, t, g)
  {
    forall d | d in Dirs(t) ensures Owns(b, g, d) {
      assert d == t.frame || exists j :: 0 <= j < |t.kids| && d in Dirs(t.kids[j]);
    }
    forall p | p in Pages(t) ensures p in b.owner ==> Owns(b, g, p) {
      assert exists j :: 0 <= j < |t.kids| && p in Pages(t.kids[j]);
    }
  }

  /** The child has not been reached: its tables, and those of its pages that were present, are in group g. */
  ghost predicate KidWaits(b0: Books, b: Books, kid: Tree, g: nat, leaf: set<Frame>) {
    Movable(b, kid, g, leaf) && SamePresence(b0, b, kid)
  }

  /** A table and its first k children are in the new group, which has room for all that took. */
  ghost predicate KidsMoved(b0: Books, b: Books, t: Tree, g: nat, to: nat, leaf: set<Frame>, k: nat) {
    && t.Dir? && k <= |t.kids| && to < |b0.groups| && Only(b0, b, g, to, Frames(t), leaf) && Dirs(t) !! leaf
    && Owns(b, to, t.frame) && SameQuota(b0, b, to) && HadRoom(b0, b, t, to, leaf, k)
    && (forall j :: 0 <= j < k ==> Moved(b, t.kids[j], to))
    && (forall j :: k <= j < |t.kids| ==> KidWaits(b0, b, t.kids[j], g, leaf))
  }

  ghost predicate HadRoom(b0: Books, b: Books, t: Tree, to: nat, leaf: set<Frame>, k: nat)
    requires t.Dir? && k <= |t.kids| && to < |b0.groups|
  {
    && Fixed(b, to, leaf) == Fixed(b0, to, leaf) + 1 + KidDirs(t.kids, k)
    && Fixed(b0, to, leaf) + 1 + NeedKids(b0.owner.Keys, t.kids, k) <= b0.groups[to].capacity
  }

  /** The same, as one fact for a loop to carry. */
  least predicate KidsDone(b0: Books, b: Books, t: Tree, g: nat, to: nat, leaf: set<Frame>, k: nat) {
    KidsMoved(b0, b, t, g, to, leaf, k)
  }

  lemma KidsIff(b0: Books, b: Books, t: Tree, g: nat, to: nat, leaf: set<Frame>, k: nat)
    ensures KidsDone(b0, b, t, g, to, leaf, k) <==> KidsMoved(b0, b, t, g, to, leaf, k)
  {
  }

  lemma KidsStep(b0: Books, b: Books, c: Books, t: Tree, g: nat, to: nat, leaf: set<Frame>, k: nat)
    requires KidsMoved(b0, b, t, g, to, leaf, k) && k < |t.kids| && Proper(t) && g != to
    requires Only(b, c, g, to, Frames(t.kids[k]), leaf) && Only(b0, c, g, to, Frames(t), leaf) && Moved(c, t.kids[k], to)
    requires Fixed(c, to, leaf) == Fixed(b, to, leaf) + DirCount(t.kids[k])
    requires Fixed(b0, to, leaf) + 1 + NeedKids(b0.owner.Keys, t.kids, k + 1) <= b0.groups[to].capacity
    ensures KidsMoved(b0, c, t, g, to, leaf, k + 1)
  {
    var kid := t.kids[k];
    KidFrames(t, k);
    assert SameQuota(b0, c, to) && Kept(b, c, to, leaf, t.frame) && t.frame in Dirs(t);
    forall j | 0 <= j < |t.kids| && j != k
      ensures j < k ==> Moved(c, t.kids[j], to)
      ensures j > k ==> KidWaits(b0, c, t.kids[j], g, leaf)
    {
      KidFrames(t, j);
      assert j > k ==> KidWaits(b0, b, t.kids[j], g, leaf);
      OthersStay(b, c, g, to, Frames(kid), t.kids[j], leaf);
    }
  }

  datatype State = State(b: Books, leaf: set<Frame>, inFlight: set<Frame>, maxPages: nat)

  ghost predicate InUse(b: Books, g: nat, users: int) { g < |b.groups| && b.groups[g].refcount >= users }

  /** The tree under a page directory of a group with another user. */
  predicate Splittable(s: State, t: Tree) {
    && t.Dir? && Proper(t) && Frames(t) <= s.b.owner.Keys && t.frame in s.b.owner
    && Movable(s.b, t, s.b.owner[t.frame], s.leaf)
    && s.b.owner[t.frame] < |s.b.groups| && s.b.groups[s.b.owner[t.frame]].refcount > 1
  }

  datatype Event =
    | AllocFrame(g: nat, user: bool)
    | Free(f: Frame)
    | Give(f: Frame)
    | Take(f: Frame, g: nat)
    | OpenTop(g: nat)
    | CloseTop(g: nat)
    | Quota(g: nat, capacity: nat)
    | Split(t: Tree, capacity: nat)

  /** The group is full of frames that cannot be evicted, or it has room but no frame is free. */
  ghost predicate AllocHalts(b: Books, g: nat, leaf: set<Frame>, inFlight: set<Frame>, maxPages: nat) {
    g < |b.groups| &&
    (|| Fixed(b, g, leaf) + 1 > b.groups[g].capacity
     || (b.groups[g].used + 1 <= b.groups[g].capacity && forall x :: 0 <= x < maxPages ==> x in b.owner || x in inFlight))
  }

  /** The group that gives quota up cannot shrink to what it keeps. */
  ghost predicate ResizeHalts(b: Books, g: nat, capacity: nat, leaf: set<Frame>) {
    && 0 < g < |b.groups| && capacity <= b.groups[g].capacity + b.groups[0].capacity
    && if capacity > b.groups[g].capacity then Fixed(b, 0, leaf) > b.groups[0].capacity + b.groups[g].capacity - capacity
       else capacity < b.groups[g].capacity && Fixed(b, g, leaf) > capacity
  }

  ghost function GroupOf(b: Books, f: Frame): nat { if f in b.owner then b.owner[f] else |b.groups| }

  /** A fork is refused for too large a share, or when every group is in use. */
  ghost predicate ForkRefused(b: Books, g: nat, capacity: nat) {
    g < |b.groups| ==> capacity >= b.groups[g].capacity || forall j :: 1 <= j < |b.groups| ==> b.groups[j].refcount != 0
  }

  /** What the old group keeps cannot hold its tables, or the new group cannot hold the tree's tables. */
  ghost predicate ForkMustHalt(b: Books, t: Tree, capacity: nat, leaf: set<Frame>) {
    var g := GroupOf(b, t.frame);
    && g < |b.groups| && !ForkRefused(b, g, capacity)
    && (Fixed(b, g, leaf) + capacity > b.groups[g].capacity || DirCount(t) > capacity)
  }

  /** The step can only halt. For all but a fork this is also when it may. */
  ghost predicate MustHalt(s: State, e: Event) {
    match e
    case AllocFrame(g, _) => InUse(s.b, g, 1) && AllocHalts(s.b, g, s.leaf, s.inFlight, s.maxPages)
    case Free(_) => false
    case Give(_) => false
    case Take(f, g) => f in s.inFlight && InUse(s.b, g, 1) && Fixed(s.b, g, s.leaf) + 1 > s.b.groups[g].capacity
    case OpenTop(g) => InUse(s.b, g, 1) && AllocHalts(s.b, g, s.leaf, s.inFlight, s.maxPages)
    case CloseTop(g) => InUse(s.b, g, 1) && g != 0 && s.b.groups[g].refcount == 1 && s.b.groups[g].used != 0
    case Quota(g, capacity) => InUse(s.b, g, 1) && ResizeHalts(s.b, g, capacity, s.leaf)
    case Split(t, capacity) => Splittable(s, t) && ForkMustHalt(s.b, t, capacity, s.leaf)
  }

  /** The same, or the new group cannot hold the tree's tables and one page at some point of the move. */
  ghost predicate ForkMayHalt(b: Books, t: Tree, capacity: nat, leaf: set<Frame>) {
    var g := GroupOf(b, t.frame);
    && g < |b.groups| && !ForkRefused(b, g, capacity)
    && (Fixed(b, g, leaf) + capacity > b.groups[g].capacity || Need(b.owner.Keys, t) > capacity)
  }

  ghost predicate MayHalt(s: State, e: Event) {
    if e.Split? then Splittable(s, e.t) && ForkMayHalt(s.b, e.t, e.capacity, s.leaf) else MustHalt(s, e)
  }

  // ---- what a step does ----

  /** Group g has frame f more: one that was free, or that a page of its own was evicted from. No more is evicted than
      the quota demands. */
  ghost predicate Allocated(s: State, g: nat, user: bool, f: Frame, s': State) {
    && g < |s.b.groups| == |s'.b.groups| && f < s.maxPages && f !in s.inFlight && Owns(s'.b, g, f)
    && (f in s.b.owner ==> Owns(s.b, g, f) && f in s.leaf) && Only(s.b, s'.b, g, g, {f}, s.leaf)
    && s'.b.groups[g].used == Min(s.b.groups[g].used + 1, s.b.groups[g].capacity)
    && s' == s.(b := s'.b, leaf := if user then s.leaf + {f} else s.leaf - {f})
  }

  /** Frame f has left its group, and nothing else has moved. */
  ghost predicate Released(s: State, f: Frame, s': State) {
    f in s.b.owner && s'.b.owner == s.b.owner - {f} && Only(s.b, s'.b, s.b.owner[f], s.b.owner[f], {f}, {})
  }

  /** Frame f, which was in flight, is in group g. */
  ghost predicate Arrived(s: State, f: Frame, g: nat, s': State) {
    && g < |s.b.groups| == |s'.b.groups| && Owns(s'.b, g, f) && Only(s.b, s'.b, g, g, {f}, s.leaf)
    && s'.b.groups[g].used == Min(s.b.groups[g].used + 1, s.b.groups[g].capacity)
    && s' == s.(b := s'.b, inFlight := s.inFlight - {f})
  }

  function WithUsers(b: Books, g: nat, n: int): Books
    requires g < |b.groups|
  {
    b.(groups := b.groups[g := b.groups[g].(refcount := n)])
  }

  /** A page directory of group g has gone; after the last one the quota is the kernel's. */
  ghost predicate Closed(s: State, g: nat, s': State) {
    && g < |s.b.groups|
    && if s.b.groups[g].refcount > 1 then s' == s.(b := WithUsers(s.b, g, s.b.groups[g].refcount - 1))
       else g > 0 && s' == s.(b := Returned(s.b, g))
  }

  /** Group g has the quota it asked for, the kernel's group the difference, and pages were evicted from the one that
      gave, no more than needed; or nothing changed. */
  ghost predicate Resized(s: State, g: nat, capacity: nat, s': State) {
    g < |s.b.groups| &&
    if g == 0 || capacity > s.b.groups[g].capacity + s.b.groups[0].capacity then s' == s
    else
      var mid, from := MoveQuota(s.b, g, capacity), if capacity > s.b.groups[g].capacity then 0 else g;
      && s' == s.(b := s'.b) && |s'.b.groups| == |s.b.groups| && Only(mid, s'.b, from, from, {}, s.leaf)
      && s'.b.groups[from].used == Min(s.b.groups[from].used, mid.groups[from].capacity)
  }

  /** A new group has the quota and the tree; or nothing changed. */
  ghost predicate Forked(s: State, t: Tree, capacity: nat, s': State) {
    if ForkRefused(s.b, GroupOf(s.b, t.frame), capacity) then s' == s
    else s' == s.(b := s'.b) && exists to: nat :: ForkedTo(s.b, t, capacity, to, s.leaf, s'.b)
  }

  ghost predicate ForkedTo(b: Books, t: Tree, capacity: nat, to: nat, leaf: set<Frame>, c: Books) {
    var g := GroupOf(b, t.frame);
    && g < |b.groups| && 0 < to < |b.groups| == |c.groups| && to != g
    && b.groups[to].refcount == 0 && c.groups[to].refcount == 1 && c.groups[to].capacity == capacity
    && c.groups[g].refcount == b.groups[g].refcount - 1 && c.groups[g].capacity == b.groups[g].capacity - capacity
    && Moved(c, t, to) && Beside(b, c, g, to, Frames(t), leaf)
  }

  /** What each step does when it does not halt; one that is asked of a group not in use does nothing. */
  ghost predicate Did(s: State, e: Event, s': State) {
    match e
    case AllocFrame(g, user) => if InUse(s.b, g, 1) then exists f: Frame :: Allocated(s, g, user, f, s') else s' == s
    case Free(f) => if f in s.b.owner then Released(s, f, s') && s' == s.(b := s'.b, leaf := s.leaf - {f}) else s' == s
    case Give(f) =>
      if f in s.b.owner then Released(s, f, s') && s' == s.(b := s'.b, inFlight := s.inFlight + {f}) else s' == s
    case Take(f, g) => if f in s.inFlight && InUse(s.b, g, 1) then Arrived(s, f, g, s') else s' == s
    case OpenTop(g) =>
      if InUse(s.b, g, 1)
      then exists f: Frame, mid: State ::
        Allocated(s, g, false, f, mid) && s' == mid.(b := WithUsers(mid.b, g, s.b.groups[g].refcount + 1))
      else s' == s
    case CloseTop(g) => if InUse(s.b, g, if g == 0 then 2 else 1) then Closed(s, g, s') else s' == s
    case Quota(g, capacity) => if InUse(s.b, g, 1) then Resized(s, g, capacity, s') else s' == s
    case Split(t, capacity) => if Splittable(s, t) then Forked(s, t, capacity, s') else s' == s
  }

  /** The books after a group's quota has gone back to the kernel. */
  function Returned(b: Books, g: nat): Books
    requires 0 < g < |b.groups|
  {
    var k := b.groups[0];
    b.(groups := b.groups[g := b.groups[g].(refcount := 0)][0 := k.(capacity := k.capacity + b.groups[g].capacity)])
  }

  lemma ReturnQuota(b: Books, g: nat)
    requires Balanced(b) && QuotaOk(b) && Tidy(b.groups) && 0 < g < |b.groups| && b.groups[g].refcount == 1
    requires b.groups[g].pages == []
    ensures var c := Returned(b, g); Balanced(c) && QuotaOk(c) && Tidy(c.groups) && LiveSum(c.groups) == LiveSum(b.groups)
  {
    var k := b.groups[0];
    var r := b.groups[g].(refcount := 0);
    var k' := k.(capacity := k.capacity + b.groups[g].capacity);
    var mid := b.(groups := b.groups[g := r]);
    QuotaBalanced(b, g, r);
    QuotaBalanced(mid, 0, k');
    LiveSumUpdate(b.groups, g, r);
    LiveSumUpdate(mid.groups, 0, k');
    var c := Returned(b, g);
    forall i ensures InQuota(c, i) { assert InQuota(b, i); }
  }

  /** The books with group g's quota set, the difference taken from or given to the kernel. */
  function MoveQuota(b: Books, g: nat, capacity: nat): Books
    requires 0 < g < |b.groups| && capacity <= b.groups[g].capacity + b.groups[0].capacity
  {
    var k := b.groups[0];
    var r := k.(capacity := k.capacity + b.groups[g].capacity - capacity);
    b.(groups := b.groups[g := b.groups[g].(capacity := capacity)][0 := r])
  }

  lemma MoveQuotaFacts(b: Books, g: nat, capacity: nat)
    requires Balanced(b) && QuotaOk(b) && Tidy(b.groups) && 0 < g < |b.groups| && b.groups[g].refcount >= 1
    requires capacity <= b.groups[g].capacity + b.groups[0].capacity
    ensures var c := MoveQuota(b, g, capacity);
      && Balanced(c) && Tidy(c.groups) && LiveSum(c.groups) == LiveSum(b.groups)
      && QuotaBut(c, if capacity > b.groups[g].capacity then 0 else g)
      && (capacity == b.groups[g].capacity ==> c == b)
  {
    var k := b.groups[0];
    var r := b.groups[g].(capacity := capacity);
    var k' := k.(capacity := k.capacity + b.groups[g].capacity - capacity);
    var mid := b.(groups := b.groups[g := r]);
    QuotaBalanced(b, g, r);
    QuotaBalanced(mid, 0, k');
    LiveSumUpdate(b.groups, g, r);
    LiveSumUpdate(mid.groups, 0, k');
    var c := MoveQuota(b, g, capacity);
    forall i | i != (if capacity > b.groups[g].capacity then 0 else g) ensures InQuota(c, i) {
      assert InQuota(b, i);
    }
  }

  lemma OnlyTidy(b: Books, c: Books, g: nat, named: set<Frame>, leaf: set<Frame>)
    requires Only(b, c, g, g, named, leaf) && Tidy(b.groups) && g < |b.groups| && b.groups[g].refcount >= 1
    ensures Tidy(c.groups)
  {
    assert SameQuota(b, c, g);
  }

  ghost predicate KeptOrEvicted(b: Books, c: Books, from: nat, to: nat, leaf: set<Frame>, x: Frame) {
    x in b.owner ==>
      if x in c.owner then c.owner[x] == b.owner[x] else (b.owner[x] == from || b.owner[x] == to) && x in leaf
  }

  /** Beside the two groups and the tree nothing has changed, but for leaf pages evicted from the two. */
  ghost predicate Beside(b: Books, c: Books, from: nat, to: nat, named: set<Frame>, leaf: set<Frame>) {
    && |c.groups| == |b.groups|
    && (forall i :: 0 <= i < |b.groups| && i != from && i != to ==> c.groups[i] == b.groups[i])
    && (forall x :: x !in named ==> KeptOrEvicted(b, c, from, to, leaf, x))
  }

  lemma BesideTree(a: Books, split: Books, shrunk: Books, c: Books, g: nat, to: nat, named: set<Frame>, leaf: set<Frame>)
    requires split.owner == a.owner && |split.groups| == |a.groups|
    requires forall i :: 0 <= i < |a.groups| && i != g && i != to ==> split.groups[i] == a.groups[i]
    requires Only(split, shrunk, g, g, {}, leaf) && Only(shrunk, c, g, to, named, leaf)
    ensures Beside(a, c, g, to, named, leaf)
  {
    forall x | x !in named ensures KeptOrEvicted(a, c, g, to, leaf, x) {
      assert Kept(split, shrunk, g, leaf, x) && Kept(shrunk, c, to, leaf, x);
    }
  }

  /** The books with group `to` set up anew and part of g's quota given to it. */
  function SplitBooks(b: Books, g: nat, to: nat, capacity: nat): Books
    requires g < |b.groups| && to < |b.groups| && g != to && capacity <= b.groups[g].capacity
  {
    var r := b.groups[g];
    var r' := r.(refcount := r.refcount - 1, capacity := r.capacity - capacity);
    b.(groups := b.groups[to := Group(capacity, 0, 1, [])][g := r'])
  }

  lemma SplitFacts(b: Books, g: nat, to: nat, capacity: nat)
    requires Balanced(b) && QuotaOk(b) && g < |b.groups| && to < |b.groups| && g != to && capacity < b.groups[g].capacity
    requires b.groups[to].refcount == 0 && b.groups[to].pages == [] && b.groups[g].refcount >= 1
    ensures var c := SplitBooks(b, g, to, capacity);
      && Balanced(c) && QuotaBut(c, g)
      && (LiveSum(c.groups) == LiveSum(b.groups) <==> b.groups[g].refcount > 1)
  {
    var r := b.groups[g];
    var fresh0 := Group(capacity, 0, 1, []);
    var r' := r.(refcount := r.refcount - 1, capacity := r.capacity - capacity);
    var mid := b.(groups := b.groups[to := fresh0]);
    assert GroupOk(b, to);
    QuotaBalanced(b, to, fresh0);
    QuotaBalanced(mid, g, r');
    LiveSumUpdate(b.groups, to, fresh0);
    LiveSumUpdate(mid.groups, g, r');
    var c := SplitBooks(b, g, to, capacity);
    forall i | i != g ensures InQuota(c, i) { assert InQuota(b, i); }
  }

  /** Two groups in use, with quotas 90 and 10. */
  function TwoGroups(): Books {
    Books(seq(NUM_MAX_PAGEGROUP, i =>
      Group(if i == 0 then 90 else if i == 1 then 10 else 0, 0, if i <= 1 then 1 else 0, [])), map[])
  }

  lemma {:induction false} NoneLive(gs: seq<Group>)
    requires forall i :: 0 <= i < |gs| ==> gs[i].Live() == 0
    ensures LiveSum(gs) == 0
  {
    if gs != [] { NoneLive(gs[..|gs| - 1]); }
  }

  /** The second group's only user splits off five pages of quota: afterwards five others are nobody's. */
  lemma LastUserLosesQuota()
    ensures Balanced(TwoGroups()) && QuotaOk(TwoGroups()) && LiveSum(TwoGroups().groups) == 100
    ensures LiveSum(SplitBooks(TwoGroups(), 1, 2, 5).groups) == 95
  {
    var b := TwoGroups();
    forall i ensures GroupOk(b, i) && InQuota(b, i) {}
    forall f ensures FrameOk(b, f) {}
    var empty := seq(NUM_MAX_PAGEGROUP, _ => Group(0, 0, 0, []));
    NoneLive(empty);
    LiveSumUpdate(empty, 0, b.groups[0]);
    LiveSumUpdate(empty[0 := b.groups[0]], 1, b.groups[1]);
    assert empty[0 := b.groups[0]][1 := b.groups[1]] == b.groups;
    LiveSumUpdate(b.groups, 2, Group(5, 0, 1, []));
    LiveSumUpdate(b.groups[2 := Group(5, 0, 1, [])], 1, Group(5, 0, 0, []));
  }

  lemma MovableSplit(b: Books, g: nat, to: nat, capacity: nat, t: Tree, leaf: set<Frame>)
    requires g < |b.groups| && to < |b.groups| && g != to && capacity <= b.groups[g].capacity && Movable(b, t, g, leaf)
    ensures Movable(SplitBooks(b, g, to, capacity), t, g, leaf)
  {
  }

  lemma MovableStays(b: Books, c: Books, g: nat, t: Tree, leaf: set<Frame>)
    requires Only(b, c, g, g, {}, leaf) && Movable(b, t, g, leaf)
    ensures Movable(c, t, g, leaf)
  {
    forall x ensures Kept(b, c, g, leaf, x) { assert x !in {}; }
  }

  lemma OnlySum(b: Books, c: Books, from: nat, to: nat, named: set<Frame>, leaf: set<Frame>)
    requires Only(b, c, from, to, named, leaf)
    ensures LiveSum(b.groups) == LiveSum(c.groups)
  {
    forall i | 0 <= i < |b.groups| ensures b.groups[i].Live() == c.groups[i].Live() { assert SameQuota(b, c, i); }
    SameQuotaSum(b.groups, c.groups);
  }

  lemma ForkTidy(a: Books, split: Books, shrunk: Books, c: Books, g: nat, to: nat, named: set<Frame>, leaf: set<Frame>)
    requires Tidy(a.groups) && g < |a.groups| && 0 < to < |a.groups| && g != to && |split.groups| == |a.groups|
    requires split.groups[to].refcount == 1 && split.groups[g].refcount == a.groups[g].refcount - 1
    requires forall i :: 0 <= i < |a.groups| && i != g && i != to ==> split.groups[i] == a.groups[i]
    requires Only(split, shrunk, g, g, {}, leaf) && Only(shrunk, c, g, to, named, leaf)
    ensures a.groups[g].refcount > 1 ==> Tidy(c.groups)
  {
    assert SameQuota(split, shrunk, g) && SameQuota(shrunk, c, g);
    assert SameQuota(split, shrunk, to) && SameQuota(shrunk, c, to);
  }

  lemma QuotaElsewhere(b: Books, c: Books, g: nat)
    requires |c.groups| == |b.groups| && forall i :: 0 <= i < |b.groups| && i != g ==> c.groups[i] == b.groups[i]
    ensures QuotaBut(b, g) ==> QuotaBut(c, g)
  {
    if QuotaBut(b, g) {
      forall i | i != g ensures InQuota(c, i) { assert InQuota(b, i); }
    }
  }

  lemma OnlyMore(b: Books, c: Books, from: nat, to: nat, named: set<Frame>, more: set<Frame>, leaf: set<Frame>)
    requires Only(b, c, from, to, named, leaf) && named <= more
    ensures Only(b, c, from, to, more, leaf)
  {
  }

  /** A change to one group is a change to it and another. */
  lemma OnlyFrom(b: Books, c: Books, from: nat, to: nat, named: set<Frame>, leaf: set<Frame>)
    requires Only(b, c, to, to, named, leaf)
    ensures Only(b, c, from, to, named, leaf)
  {
  }

  /** Taking named frames off one list evicts nothing from another. */
  lemma OnlyTo(b: Books, c: Books, from: nat, to: nat, named: set<Frame>, leaf: set<Frame>)
    requires Only(b, c, from, from, named, {})
    ensures Only(b, c, from, to, named, leaf)
  {
    forall x | x !in named ensures Kept(b, c, to, leaf, x) {
      assert Kept(b, c, from, {}, x);
    }
  }

  lemma AttachedOnly(b: Books, g: nat, f: Frame, leaf: set<Frame>)
    requires g < |b.groups| && f !in b.owner
    ensures Only(b, Attached(b, g, f), g, g, {f}, leaf)
  {
  }

  lemma DetachedOnly(b: Books, g: nat, k: nat, leaf: set<Frame>)
    requires Balanced(b) && g < |b.groups| && k < |b.groups[g].pages| && b.groups[g].pages[k] in leaf
    ensures Only(b, Detached(b, g, k), g, g, {}, leaf)
  {
    assert GroupOk(b, g) && Owns(b, g, b.groups[g].pages[k]);
  }

  class Accounts {
    const maxPages: nat
    var b: Books
    var leaf: set<Frame>       // frames that hold user pages
    var inFlight: set<Frame>   // frames in pipe segments, on no list
    var halted: bool           // an eviction found no page, or no frame is left

    /** Every frame is on one list, in flight or free; quotas hold; the quotas of the groups in use make up
        all of memory; a free group is empty; the kernel's group is always in use. */
    ghost predicate Valid()
      reads this
    {
      && Balanced(b) && QuotaOk(b) && LiveSum(b.groups) == maxPages && Tidy(b.groups)
      && inFlight !! b.owner.Keys && forall f :: f in b.owner || f in inFlight ==> f < maxPages
    }

    constructor (maxPages: nat)
      ensures this.maxPages == maxPages && Valid() && !halted && b.owner == map[]
    {
      this.maxPages := maxPages;
      var empty := seq(NUM_MAX_PAGEGROUP, _ => Group(0, 0, 0, []));
      b := Books(empty[0 := Group(maxPages, 0, 1, [])], map[]);
      leaf, inFlight, halted := {}, {}, false;
      new;
      LiveSumUpdate(empty, 0, Group(maxPages, 0, 1, []));
      NoneLive(empty);
    }

    /** Evicts leaf pages of group g until there is room for so many more; halts exactly when evicting them all
        would not make it. */
    method Shrink(g: nat, space: nat)
      requires Balanced(b) && g < |b.groups| && !halted
      modifies this`b, this`halted
      ensures Balanced(b) && Only(old(b), b, g, g, {}, leaf) && Fixed(b, g, leaf) == Fixed(old(b), g, leaf)
      ensures halted <==> Fixed(old(b), g, leaf) + space > old(b).groups[g].capacity
      ensures !halted ==> b.groups[g].used == Min(old(b).groups[g].used, old(b).groups[g].capacity - space)
      ensures !halted ==> b == old(b) || exists x :: x in old(b).owner && x !in b.owner
      ensures old(b).groups[g].used + space <= old(b).groups[g].capacity ==> b == old(b)
      ensures QuotaBut(old(b), g) ==> QuotaBut(b, g) && (!halted ==> QuotaOk(b))
    {
      while b.groups[g].used + space > b.groups[g].capacity
        invariant Balanced(b) && Only(old(b), b, g, g, {}, leaf) && !halted
        invariant Fixed(b, g, leaf) == Fixed(old(b), g, leaf) && SameQuota(old(b), b, g)
        invariant b == old(b) || (exists x :: x in old(b).owner && x !in b.owner)
        invariant old(b).groups[g].used + space <= old(b).groups[g].capacity ==> b == old(b)
        invariant b == old(b) || b.groups[g].used + space >= b.groups[g].capacity
        invariant QuotaBut(old(b), g) ==> QuotaBut(b, g)
        decreases |b.groups[g].pages|
      {
        assert GroupOk(b, g);
        if !exists k :: 0 <= k < |b.groups[g].pages| && b.groups[g].pages[k] in leaf {
          halted := true;
          return;
        }
        var k: nat :| k < |b.groups[g].pages| && b.groups[g].pages[k] in leaf;
        EvictOne(g, k, old(b));
        assert GroupOk(b, g) && SameQuota(old(b), b, g);
      }
      assert GroupOk(b, g);
      assert QuotaBut(b, g) && InQuota(b, g) ==> QuotaOk(b);
    }

    /** Evicts the k-th page of group g, a leaf. */
    method EvictOne(g: nat, k: nat, ghost b0: Books)
      requires Balanced(b) && g < |b.groups| && k < |b.groups[g].pages| && b.groups[g].pages[k] in leaf
      requires Only(b0, b, g, g, {}, leaf)
      modifies this`b
      ensures Balanced(b) && Only(b0, b, g, g, {}, leaf) && Fixed(b, g, leaf) == Fixed(old(b), g, leaf)
      ensures |b.groups[g].pages| == |old(b).groups[g].pages| - 1
      ensures exists x :: x in b0.owner && x !in b.owner
      ensures QuotaBut(old(b), g) ==> QuotaBut(b, g)
    {
      ghost var x := b.groups[g].pages[k];
      assert GroupOk(b, g) && Owns(b, g, x);
      DetachedBalanced(b, g, k);
      DetachedOnly(b, g, k, leaf);
      DetachedFixed(b, g, k, leaf);
      OnlyThen(b0, b, Detached(b, g, k), g, g, {}, {}, leaf);
      QuotaElsewhere(b, Detached(b, g, k), g);
      b := Detached(b, g, k);
      assert x in b0.owner && x !in b.owner;
    }

    /** Puts an unowned frame on group g's list, making room first. */
    method Attach(f: Frame, g: nat)
      requires Balanced(b) && g < |b.groups| && f !in b.owner && !halted
      modifies this`b, this`halted
      ensures Balanced(b) && Only(old(b), b, g, g, {f}, leaf)
      ensures halted <==> Fixed(old(b), g, leaf) + 1 > old(b).groups[g].capacity
      ensures !halted ==> Owns(b, g, f) && (QuotaBut(old(b), g) ==> QuotaOk(b))
      ensures !halted ==> b.groups[g].used == Min(old(b).groups[g].used + 1, old(b).groups[g].capacity)
      ensures !halted ==> Fixed(b, g, leaf) == Fixed(old(b), g, leaf) + if f in leaf then 0 else 1
    {
      Shrink(g, 1);
      ghost var mid := b;
      if halted {
        OnlyMore(old(b), b, g, g, {}, {f}, leaf);
        return;
      }
      AttachedBalanced(b, g, f);
      AttachedOnly(b, g, f, leaf);
      AttachedFixed(b, g, f, leaf);
      OnlyThen(old(b), b, Attached(b, g, f), g, g, {}, {f}, leaf);
      QuotaElsewhere(b, Attached(b, g, f), g);
      b := Attached(b, g, f);
      assert {} + {f} == {f};
      assert QuotaBut(b, g) && InQuota(b, g) ==> QuotaOk(b);
    }

    /** Takes a frame off the list of the group that owns it. */
    method Detach(f: Frame)
      requires Balanced(b) && f in b.owner
      modifies this`b
      ensures Balanced(b) && f !in b.owner && Only(old(b), b, old(b).owner[f], old(b).owner[f], {f}, {})
      ensures QuotaOk(old(b)) ==> QuotaOk(b)
    {
      var g := b.owner[f];
      assert FrameOk(b, f);
      var k: nat :| k < |b.groups[g].pages| && b.groups[g].pages[k] == f;
      DetachedBalanced(b, g, k);
      QuotaElsewhere(b, Detached(b, g, k), g);
      assert InQuota(b, g) ==> InQuota(Detached(b, g, k), g);
      b := Detached(b, g, k);
    }

    /** Moves a frame to another group. */
    method MoveFrame(f: Frame, g: nat, to: nat)
      requires Balanced(b) && Owns(b, g, f) && to < |b.groups| && g != to && !halted
      modifies this`b, this`halted
      ensures Balanced(b) && Only(old(b), b, g, to, {f}, leaf)
      ensures halted <==> Fixed(old(b), to, leaf) + 1 > old(b).groups[to].capacity
      ensures !halted ==> Owns(b, to, f) && (QuotaOk(old(b)) ==> QuotaOk(b))
      ensures !halted ==> Fixed(b, to, leaf) == Fixed(old(b), to, leaf) + if f in leaf then 0 else 1
    {
      Shrink(to, 1);
      ghost var b1 := b;
      OnlyFrom(old(b), b1, g, to, {}, leaf);
      if halted {
        OnlyMore(old(b), b, g, to, {}, {f}, leaf);
        return;
      }
      assert Kept(old(b), b, to, leaf, f);
      Detach(f);
      ghost var b2 := b;
      assert SameQuota(old(b), b1, to) && SameQuota(b1, b2, to);
      OnlyTo(b1, b2, g, to, {f}, leaf);
      OnlyThen(old(b), b1, b2, g, to, {}, {f}, leaf);
      Attach(f, to);
      OnlyFrom(b2, b, g, to, {f}, leaf);
      OnlyThen(old(b), b2, b, g, to, {} + {f}, {f}, leaf);
      assert {} + {f} + {f} == {f};
    }

    /** Moves a table, its present user pages and everything below it to another group. */
    method Migrate(t: Tree, g: nat, to: nat)
      requires Balanced(b) && t.Dir? && Proper(t) && Movable(b, t, g, leaf) && g != to && to < |b.groups| && !halted
      modifies this`b, this`halted
      ensures Balanced(b) && Only(old(b), b, g, to, Frames(t), leaf)
      ensures halted <==> Fixed(old(b), to, leaf) + Need(old(b).owner.Keys, t) > old(b).groups[to].capacity
      ensures !halted ==> Moved(b, t, to) && (QuotaOk(old(b)) ==> QuotaOk(b))
      ensures !halted ==> Fixed(b, to, leaf) == Fixed(old(b), to, leaf) + DirCount(t)
      decreases t, 2
    {
      MoveTop(t, g, to);
      if !halted {
        MigrateKids(t, g, to, old(b));
        if !halted { MovedWhole(b, t, to); }
      }
    }

    /** Moves the children of a table, in order. */
    method MigrateKids(t: Tree, g: nat, to: nat, ghost b0: Books)
      requires Balanced(b) && t.Dir? && Proper(t) && g != to && to < |b.groups| && !halted
      requires KidsMoved(b0, b, t, g, to, leaf, 0)
      modifies this`b, this`halted
      ensures Balanced(b) && Only(b0, b, g, to, Frames(t), leaf)
      ensures halted <==> Fixed(b0, to, leaf) + 1 + NeedKids(b0.owner.Keys, t.kids, |t.kids|) > b0.groups[to].capacity
      ensures !halted ==> KidsMoved(b0, b, t, g, to, leaf, |t.kids|) && (QuotaOk(old(b)) ==> QuotaOk(b))
      decreases t, 1
    {
      var k := 0;
      KidsIff(b0, b, t, g, to, leaf, 0);
      while k < |t.kids|
        invariant 0 <= k <= |t.kids| && Balanced(b) && (QuotaOk(old(b)) ==> QuotaOk(b)) && !halted
        invariant KidsDone(b0, b, t, g, to, leaf, k)
      {
        KidsIff(b0, b, t, g, to, leaf, k);
        MigrateKid(t, k, g, to, b0);
        k := k + 1;
        if halted {
          NeedGrows(b0.owner.Keys, t.kids, k);
          return;
        }
        KidsIff(b0, b, t, g, to, leaf, k);
      }
      KidsIff(b0, b, t, g, to, leaf, k);
    }

    /** Moves the table itself. */
    method MoveTop(t: Tree, g: nat, to: nat)
      requires Balanced(b) && t.Dir? && Proper(t) && Movable(b, t, g, leaf) && g != to && to < |b.groups| && !halted
      modifies this`b, this`halted
      ensures Balanced(b) && Only(old(b), b, g, to, Frames(t), leaf)
      ensures halted <==> Fixed(old(b), to, leaf) + 1 > old(b).groups[to].capacity
      ensures !halted ==> KidsMoved(old(b), b, t, g, to, leaf, 0) && (QuotaOk(old(b)) ==> QuotaOk(b))
    {
      assert t.frame in Dirs(t);
      MoveFrame(t.frame, g, to);
      OnlyMore(old(b), b, g, to, {t.frame}, Frames(t), leaf);
      assert SameQuota(old(b), b, to);
      forall j | 0 <= j < |t.kids| ensures KidWaits(old(b), b, t.kids[j], g, leaf) {
        KidFrames(t, j);
        assert Movable(old(b), t.kids[j], g, leaf);
        OthersStay(old(b), b, g, to, {t.frame}, t.kids[j], leaf);
      }
    }

    /** Moves the k-th child of a table: a page if it is still present, or a whole table. */
    method MigrateKid(t: Tree, k: nat, g: nat, to: nat, ghost b0: Books)
      requires Balanced(b) && t.Dir? && k < |t.kids| && Proper(t) && g != to && to < |b.groups| && !halted
      requires KidsMoved(b0, b, t, g, to, leaf, k)
      modifies this`b, this`halted
      ensures Balanced(b) && Only(b0, b, g, to, Frames(t), leaf)
      ensures halted <==> Fixed(b0, to, leaf) + 1 + NeedKids(b0.owner.Keys, t.kids, k + 1) > b0.groups[to].capacity
      ensures !halted ==> KidsMoved(b0, b, t, g, to, leaf, k + 1) && (QuotaOk(old(b)) ==> QuotaOk(b))
      decreases t, 0
    {
      var kid := t.kids[k];
      KidFrames(t, k);
      assert KidWaits(b0, b, kid, g, leaf);
      NeedSame(b0, b, kid);
      match kid {
        case Page(f) =>
          if f in b.owner {
            MoveFrame(f, g, to);
          }
        case Dir(_, _) =>
          Migrate(kid, g, to);
      }
      OnlyMore(old(b), b, g, to, if kid.Page? then {kid.frame} else Frames(kid), Frames(kid), leaf);
      OnlyThen(b0, old(b), b, g, to, Frames(t), Frames(kid), leaf);
      assert Frames(t) + Frames(kid) == Frames(t);
      if !halted { KidsStep(b0, old(b), b, t, g, to, leaf, k); }
    }

    /** The first group nobody uses, or 0. */
    method FindFreeGroup() returns (i: nat)
      requires |b.groups| == NUM_MAX_PAGEGROUP
      ensures i < 64 == |b.groups| && (i != 0 ==> b.groups[i].refcount == 0)
      ensures forall j :: 1 <= j < (if i == 0 then 64 else i) ==> b.groups[j].refcount != 0
    {
      i := 1;
      while i < NUM_MAX_PAGEGROUP
        invariant 1 <= i <= NUM_MAX_PAGEGROUP && forall j :: 1 <= j < i ==> b.groups[j].refcount != 0
      {
        if b.groups[i].refcount == 0 {
          return;
        }
        i := i + 1;
      }
      i := 0;
    }

    /** Splits a group: a new one takes part of the quota and the whole tree under a page directory. The
        quotas in use still make up all of memory exactly if the old group keeps another user. */
    method Fork(t: Tree, capacity: nat) returns (ok: bool)
      requires Valid() && !halted && t.Dir? && Proper(t) && Frames(t) <= b.owner.Keys && t.frame in b.owner
      requires Movable(b, t, b.owner[t.frame], leaf)
      modifies this`b, this`halted
      ensures !ok && !halted <==> ForkRefused(old(b), old(b).owner[t.frame], capacity)
      ensures !ok && !halted ==> b == old(b)
      ensures ForkMustHalt(old(b), t, capacity, leaf) ==> halted
      ensures halted ==> ForkMayHalt(old(b), t, capacity, leaf)
      ensures ok ==> !halted && Balanced(b) && QuotaOk(b) && GroupOf(old(b), t.frame) < |old(b).groups|
      ensures ok ==> exists to: nat :: ForkedTo(old(b), t, capacity, to, leaf, b)
      ensures ok ==> (LiveSum(b.groups) == maxPages <==> old(b).groups[GroupOf(old(b), t.frame)].refcount > 1)
      ensures ok && old(b).groups[GroupOf(old(b), t.frame)].refcount > 1 ==> Valid()
    {
      var g := b.owner[t.frame];
      assert FrameOk(b, t.frame);
      if capacity >= b.groups[g].capacity {
        return false;
      }
      var to := FindFreeGroup();
      if to == 0 {
        return false;
      }
      SplitFacts(b, g, to, capacity);
      ok := SplitOff(t, g, to, capacity);
      assert ok ==> ForkedTo(old(b), t, capacity, to, leaf, b);
    }

    /** Sets up the new group and moves the tree. */
    method SplitOff(t: Tree, g: nat, to: nat, capacity: nat) returns (ok: bool)
      requires !halted && t.Dir? && Proper(t) && Movable(b, t, g, leaf) && Tidy(b.groups)
      requires g < |b.groups| && 0 < to < |b.groups| && g != to && capacity <= b.groups[g].capacity
      requires Balanced(SplitBooks(b, g, to, capacity)) && QuotaBut(SplitBooks(b, g, to, capacity), g)
      modifies this`b, this`halted
      ensures ok == !halted && b.owner.Keys <= old(b).owner.Keys + Frames(t)
      ensures Fixed(old(b), g, leaf) + capacity > old(b).groups[g].capacity || DirCount(t) > capacity ==> halted
      ensures halted ==>
        Fixed(old(b), g, leaf) + capacity > old(b).groups[g].capacity || Need(old(b).owner.Keys, t) > capacity
      ensures ok ==> Balanced(b) && QuotaOk(b) && Moved(b, t, to) && |b.groups| == |old(b).groups|
      ensures ok ==> b.groups[to].capacity == capacity && b.groups[to].refcount == 1
      ensures ok ==> b.groups[g].capacity == old(b).groups[g].capacity - capacity
      ensures ok ==> b.groups[g].refcount == old(b).groups[g].refcount - 1
      ensures ok ==> LiveSum(b.groups) == LiveSum(SplitBooks(old(b), g, to, capacity).groups)
      ensures ok ==> Beside(old(b), b, g, to, Frames(t), leaf)
      ensures ok && old(b).groups[g].refcount > 1 ==> Tidy(b.groups)
    {
      ghost var split := SplitBooks(b, g, to, capacity);
      MovableSplit(b, g, to, capacity, t, leaf);
      b := b.(groups := b.groups[to := Group(capacity, 0, 1, [])]);
      var r := b.groups[g];
      b := b.(groups := b.groups[g := r.(refcount := r.refcount - 1, capacity := r.capacity - capacity)]);
      assert b == split;
      Shrink(g, 0);
      if halted {
        return false;
      }
      ghost var shrunk := b;
      MovableStays(split, b, g, t, leaf);
      NeedFewer(b.owner.Keys, old(b).owner.Keys, t);
      NeedTables(b.owner.Keys, t);
      assert SameQuota(split, shrunk, to) && Fixed(shrunk, to, leaf) == 0;
      Migrate(t, g, to);
      ok := !halted;
      OnlySum(split, shrunk, g, g, {}, leaf);
      OnlySum(shrunk, b, g, to, Frames(t), leaf);
      ForkTidy(old(b), split, shrunk, b, g, to, Frames(t), leaf);
      assert SameQuota(split, shrunk, to) && SameQuota(shrunk, b, to);
      assert SameQuota(split, shrunk, g) && SameQuota(shrunk, b, g);
      BesideTree(old(b), split, shrunk, b, g, to, Frames(t), leaf);
    }

    /** Moves quota between the kernel's group and another; the receiver's growth comes out of the kernel's
        share, which must be large enough. */
    method Resize(g: nat, capacity: nat) returns (ok: bool)
      requires Valid() && !halted && g < |b.groups| && b.groups[g].refcount >= 1
      modifies this`b, this`halted
      ensures !halted ==> Valid()
      ensures halted <==> ResizeHalts(old(b), g, capacity, leaf)
      ensures !halted ==> (ok <==> g != 0 && capacity <= old(b).groups[g].capacity + old(b).groups[0].capacity)
      ensures !halted ==> Resized(old(Now()), g, capacity, Now())
    {
      if g == 0 || capacity > b.groups[g].capacity + b.groups[0].capacity {
        return false;
      }
      var mid := MoveQuota(b, g, capacity);
      MoveQuotaFacts(b, g, capacity);
      assert InQuota(b, g);
      if capacity > b.groups[g].capacity {
        b := mid;
        Shrink(0, 0);
        OnlyTidy(mid, b, 0, {}, leaf);
        OnlySum(mid, b, 0, 0, {}, leaf);
      } else if capacity < b.groups[g].capacity {
        b := mid;
        Shrink(g, 0);
        OnlyTidy(mid, b, g, {}, leaf);
        OnlySum(mid, b, g, g, {}, leaf);
      }
      ok := true;
    }

    /** Takes a free frame for a group, making room first. */
    method Alloc(g: nat, user: bool) returns (f: Frame)
      requires Valid() && !halted && g < |b.groups| && b.groups[g].refcount >= 1
      modifies this`b, this`leaf, this`halted
      ensures halted <==> AllocHalts(old(b), g, old(leaf), inFlight, maxPages)
      ensures !halted ==> Valid() && Allocated(old(Now()), g, user, f, Now())
    {
      f := 0;
      Shrink(g, 1);
      if halted {
        return;
      }
      assert SameQuota(old(b), b, g);
      if !exists x :: 0 <= x < maxPages && x !in b.owner && x !in inFlight {
        assert b == old(b);
        halted := true;
        return;
      }
      f :| 0 <= f < maxPages && f !in b.owner && f !in inFlight;
      ghost var mid := b;
      OnlyTidy(old(b), mid, g, {}, leaf);
      OnlySum(old(b), mid, g, g, {}, leaf);
      Attach(f, g);
      OnlyTidy(mid, b, g, {f}, leaf);
      OnlySum(mid, b, g, g, {f}, leaf);
      OnlyThen(old(b), mid, b, g, g, {}, {f}, leaf);
      assert {} + {f} == {f};
      if !halted {
        assert Kept(old(b), mid, g, old(leaf), f);
        leaf := if user then leaf + {f} else leaf - {f};
      }
    }

    /** Gives a frame back. */
    method FreeFrame(f: Frame)
      requires Valid() && f in b.owner
      modifies this`b, this`leaf
      ensures Valid() && Released(old(Now()), f, Now()) && leaf == old(leaf) - {f}
    {
      Unlink(f);
      leaf := leaf - {f};
    }

    method Unlink(f: Frame)
      requires Valid() && f in b.owner
      modifies this`b
      ensures Valid() && Released(old(Now()), f, Now())
    {
      var g := b.owner[f];
      assert FrameOk(b, f);
      Detach(f);
      OnlyTidy(old(b), b, g, {f}, {});
      OnlySum(old(b), b, g, g, {f}, {});
      forall x | x in old(b).owner && x != f ensures x in b.owner && b.owner[x] == old(b).owner[x] {
        assert Kept(old(b), b, g, {}, x);
      }
    }

    /** A page leaves its group for a pipe segment. */
    method PipeGive(f: Frame)
      requires Valid() && f in b.owner
      modifies this`b, this`inFlight
      ensures Valid() && Released(old(Now()), f, Now()) && inFlight == old(inFlight) + {f}
    {
      Unlink(f);
      inFlight := inFlight + {f};
    }

    /** A page arrives from a pipe segment in the taker's group. */
    method PipeTake(f: Frame, g: nat)
      requires Valid() && !halted && f in inFlight && g < |b.groups| && b.groups[g].refcount >= 1
      modifies this`b, this`inFlight, this`halted
      ensures halted <==> Fixed(old(b), g, leaf) + 1 > old(b).groups[g].capacity
      ensures !halted ==> Valid() && Arrived(old(Now()), f, g, Now())
    {
      inFlight := inFlight - {f};
      Attach(f, g);
      OnlyTidy(old(b), b, g, {f}, leaf);
      OnlySum(old(b), b, g, g, {f}, leaf);
    }

    /** A new page directory: one frame, one more user. */
    method NewTop(g: nat) returns (f: Frame)
      requires Valid() && !halted && g < |b.groups| && b.groups[g].refcount >= 1
      modifies this`b, this`leaf, this`halted
      ensures halted <==> AllocHalts(old(b), g, old(leaf), inFlight, maxPages)
      ensures !halted ==> Valid() && exists mid: State ::
        && Allocated(old(Now()), g, false, f, mid)
        && Now() == mid.(b := WithUsers(mid.b, g, old(b).groups[g].refcount + 1))
    {
      f := Alloc(g, false);
      if !halted {
        ghost var mid := Now();
        assert SameQuota(old(b), b, g);
        SetUsers(g, b.groups[g].refcount + 1);
        assert Allocated(old(Now()), g, false, f, mid);
      }
    }

    /** Changes how many directories use a group that stays in use. */
    method SetUsers(g: nat, n: int)
      requires Valid() && g < |b.groups| && b.groups[g].refcount >= 1 && n >= 1
      modifies this`b
      ensures Valid() && b == WithUsers(old(b), g, n)
    {
      ghost var b0 := b;
      QuotaBalanced(b, g, b.groups[g].(refcount := n));
      LiveSumUpdate(b.groups, g, b.groups[g].(refcount := n));
      QuotaElsewhere(b, b.(groups := b.groups[g := b.groups[g].(refcount := n)]), g);
      assert InQuota(b, g);
      b := b.(groups := b.groups[g := b.groups[g].(refcount := n)]);
      assert forall i :: i != g && InQuota(b0, i) ==> InQuota(b, i);
      assert InQuota(b, g);
    }

    /** A page directory goes. When it was the last one, the group must be empty, and its quota returns to
        the kernel's group. */
    method FreeTop(g: nat)
      requires Valid() && !halted && g < |b.groups| && b.groups[g].refcount >= 1 && (g == 0 ==> b.groups[g].refcount > 1)
      modifies this`b, this`halted
      ensures halted <==> old(b).groups[g].refcount == 1 && old(b).groups[g].used != 0
      ensures !halted ==> Valid() && Closed(old(Now()), g, Now())
    {
      if b.groups[g].refcount > 1 {
        SetUsers(g, b.groups[g].refcount - 1);
        return;
      }
      assert GroupOk(b, g);
      if b.groups[g].used != 0 {
        halted := true;
        return;
      }
      ReturnQuota(b, g);
      b := Returned(b, g);
    }

    ghost function Now(): State
      reads this
    {
      State(b, leaf, inFlight, maxPages)
    }

    /** One step: a request on a group in use, for a frame or a tree the group has. A fork is asked of a
        group with more than one user, as the system call does of the kernel's group. */
    method Apply(e: Event)
      requires Valid() && !halted
      modifies this
      ensures !halted ==> Valid() && Did(old(Now()), e, Now())
      ensures (MustHalt(old(Now()), e) ==> halted) && (halted ==> MayHalt(old(Now()), e))
    {
      match e
      case AllocFrame(g, user) =>
        if g < |b.groups| && b.groups[g].refcount >= 1 { var f := Alloc(g, user); }
      case Free(f) =>
        if f in b.owner { FreeFrame(f); }
      case Give(f) =>
        if f in b.owner { PipeGive(f); }
      case Take(f, g) =>
        if f in inFlight && g < |b.groups| && b.groups[g].refcount >= 1 { PipeTake(f, g); }
      case OpenTop(g) =>
        if g < |b.groups| && b.groups[g].refcount >= 1 { var f := NewTop(g); }
      case CloseTop(g) =>
        if g < |b.groups| && b.groups[g].refcount >= (if g == 0 then 2 else 1) { FreeTop(g); }
      case Quota(g, capacity) =>
        if g < |b.groups| && b.groups[g].refcount >= 1 { var ok := Resize(g, capacity); }
      case Split(t, capacity) =>
        if Splittable(State(b, leaf, inFlight, maxPages), t) { var ok := Fork(t, capacity); }
    }

    /** Over every run each step does what it should and the accounts stay balanced. A run is cut short only by a step
        that must evict more than can be evicted, finds no free frame, or closes a group that still owns frames. */
    method Run(es: seq<Event>) returns (done: nat, ghost seen: seq<State>)
      requires Valid() && !halted
      modifies this
      ensures done <= |es| && |seen| == done + 1 && seen[0] == old(Now()) && (halted <==> done < |es|)
      ensures forall i :: 0 <= i < done ==> Did(seen[i], es[i], seen[i + 1]) && !MustHalt(seen[i], es[i])
      ensures halted ==> MayHalt(seen[done], es[done])
      ensures !halted ==> Valid() && seen[done] == Now()
    {
      done, seen := 0, [Now()];
      while done < |es|
        invariant 0 <= done <= |es| && |seen| == done + 1 && seen[0] == old(Now()) && !halted && Valid()
        invariant seen[done] == Now()
        invariant forall i :: 0 <= i < done ==> Did(seen[i], es[i], seen[i + 1]) && !MustHalt(seen[i], es[i])
      {
        Apply(es[done]);
        if halted {
          return;
        }
        seen := seen + [Now()];
        done := done + 1;
      }
    }
  }
}
