/** The hashed dentry cache, proved to be a partial map from (directory, name) to entries. */
module Dcache {
  import opened Common
  import opened Names

  datatype Entry = Entry(parent: nat, offset: nat, dentry: Dentry) {
    predicate Is(p: nat, key: seq<Byte>) { parent == p && Key(dentry.name) == key }
  }

  const DENTRY_CACHE_BUCKETS := 256

  /** Folding a mixing step over the bytes of a name. */
  function Fold<H>(mix: (H, Byte) -> H, h: H, key: seq<Byte>): H
    decreases |key|
  {
    if key == [] then h else Fold(mix, mix(h, key[0]), key[1..])
  }

  /** One FNV-1a step. */
  function Mix(h: bv32, b: Byte): bv32 { (h ^ (b as bv32)) * 16777619 }

  function Seed(parent: nat): bv32 { 2166136261 ^ ((parent % 0x1_0000_0000) as bv32) }

  function Finish(h: bv32, n: nat): (b: nat)
    ensures b < DENTRY_CACHE_BUCKETS
  {
    (Mix(h, n % 256) & 255) as nat
  }

  /** The bucket of a name in a directory: it depends on the name's meaning only. */
  function Bucket(parent: nat, key: seq<Byte>): (b: nat)
    ensures b < DENTRY_CACHE_BUCKETS
  {
    Finish(Fold(Mix, Seed(parent), key), |key|)
  }

  // ---- one chain ----

  function FindFrom(chain: seq<Entry>, p: nat, key: seq<Byte>, i: nat): (k: nat)
    requires i <= |chain|
    ensures i <= k <= |chain|
    ensures k < |chain| ==> chain[k].Is(p, key)
    ensures forall j :: i <= j < k ==> !chain[j].Is(p, key)
    decreases |chain| - i
  {
    if i == |chain| || chain[i].Is(p, key) then i else FindFrom(chain, p, key, i + 1)
  }

  function InChain(chain: seq<Entry>, p: nat, key: seq<Byte>): Option<Entry> {
    var k := FindFrom(chain, p, key, 0);
    if k < |chain| then Some(chain[k]) else None
  }

  ghost predicate NoTwins(chain: seq<Entry>) {
    forall i, j :: 0 <= i < j < |chain| ==> !chain[j].Is(chain[i].parent, Key(chain[i].dentry.name))
  }

  lemma FindUnique(chain: seq<Entry>, p: nat, key: seq<Byte>, i: nat)
    requires NoTwins(chain) && i < |chain| && chain[i].Is(p, key)
    ensures InChain(chain, p, key) == Some(chain[i])
  {
  }

  lemma NotFound(chain: seq<Entry>, p: nat, key: seq<Byte>)
    requires forall i :: 0 <= i < |chain| ==> !chain[i].Is(p, key)
    ensures InChain(chain, p, key) == None
  {
  }

  lemma ChainSet(chain: seq<Entry>, i: nat, e: Entry, p: nat, key: seq<Byte>)
    requires NoTwins(chain) && i < |chain| && chain[i].Is(e.parent, Key(e.dentry.name))
    ensures NoTwins(chain[i := e])
    ensures InChain(chain[i := e], p, key) == if e.Is(p, key) then Some(e) else InChain(chain, p, key)
  {
    var chain' := chain[i := e];
    if e.Is(p, key) {
      FindUnique(chain', p, key, i);
    } else {
      var k := FindFrom(chain, p, key, 0);
      if k < |chain| { FindUnique(chain', p, key, k); } else { NotFound(chain', p, key); }
    }
  }

  lemma ChainPush(chain: seq<Entry>, e: Entry, p: nat, key: seq<Byte>)
    requires NoTwins(chain) && InChain(chain, e.parent, Key(e.dentry.name)) == None
    ensures NoTwins([e] + chain)
    ensures InChain([e] + chain, p, key) == if e.Is(p, key) then Some(e) else InChain(chain, p, key)
  {
    var chain' := [e] + chain;
    if e.Is(p, key) {
      FindUnique(chain', p, key, 0);
    } else {
      var k := FindFrom(chain, p, key, 0);
      if k < |chain| {
        assert chain'[k + 1] == chain[k];
        FindUnique(chain', p, key, k + 1);
      } else {
        NotFound(chain', p, key);
      }
    }
  }

  lemma ChainDrop(chain: seq<Entry>, i: nat, p: nat, key: seq<Byte>)
    requires NoTwins(chain) && i < |chain|
    ensures NoTwins(Without(chain, i))
    ensures InChain(Without(chain, i), p, key) == if chain[i].Is(p, key) then None else InChain(chain, p, key)
  {
    var chain' := Without(chain, i);
    assert forall j :: 0 <= j < |chain'| ==> chain'[j] == chain[if j < i then j else j + 1];
    if chain[i].Is(p, key) {
      NotFound(chain', p, key);
    } else {
      var k := FindFrom(chain, p, key, 0);
      if k < |chain| {
        FindUnique(chain', p, key, if k < i then k else k - 1);
      } else {
        NotFound(chain', p, key);
      }
    }
  }

  /** A chain without the entries of one directory. */
  function Stripped(chain: seq<Entry>, p: nat): seq<Entry> {
    if chain == [] then []
    else if chain[0].parent == p then Stripped(chain[1..], p)
    else [chain[0]] + Stripped(chain[1..], p)
  }

  lemma {:induction false} StrippedKeeps(chain: seq<Entry>, p: nat, q: nat, key: seq<Byte>)
    requires NoTwins(chain)
    ensures NoTwins(Stripped(chain, p))
    ensures forall e :: e in Stripped(chain, p) <==> e in chain && e.parent != p
    ensures InChain(Stripped(chain, p), q, key) == if q == p then None else InChain(chain, q, key)
  {
    if chain == [] {
    } else {
      var rest := chain[1..];
      assert chain == [chain[0]] + rest;
      StrippedKeeps(rest, p, q, key);
      var e := chain[0];
      assert forall j :: 0 <= j < |rest| ==> rest[j] == chain[j + 1];
      NotFound(rest, e.parent, Key(e.dentry.name));
      ChainPush(rest, e, q, key);
      if e.parent != p {
        StrippedKeeps(rest, p, e.parent, Key(e.dentry.name));
        ChainPush(Stripped(rest, p), e, q, key);
      }
    }
  }

  // ---- the table ----

  ghost predicate ChainOk(table: seq<seq<Entry>>, b: int) {
    0 <= b < |table| ==>
      NoTwins(table[b]) && forall e :: e in table[b] ==> Bucket(e.parent, Key(e.dentry.name)) == b
  }

  ghost predicate TableOk(table: seq<seq<Entry>>) {
    |table| == DENTRY_CACHE_BUCKETS && forall b :: ChainOk(table, b)
  }

  /** What the cache knows about a name in a directory. */
  function Known(table: seq<seq<Entry>>, p: nat, key: seq<Byte>): Option<Entry>
    requires |table| == DENTRY_CACHE_BUCKETS
  {
    InChain(table[Bucket(p, key)], p, key)
  }

  /** Every answer is the same except the one for (p, key), which becomes r. */
  ghost predicate OnlyAt(table: seq<seq<Entry>>, table': seq<seq<Entry>>, p: nat, key: seq<Byte>, r: Option<Entry>)
    requires |table| == DENTRY_CACHE_BUCKETS && |table'| == DENTRY_CACHE_BUCKETS
  {
    forall q, k :: Known(table', q, k) == if q == p && k == key then r else Known(table, q, k)
  }

  /** What the cache knows about a name once an entry for it was offered. */
  function AfterPut(enabled: bool, granted: bool, known: Option<Entry>, e: Entry): Option<Entry> {
    if !enabled || e.dentry.ino == 0 || (known.None? && !granted) then known else Some(e)
  }

  lemma ReplacedChain(table: seq<seq<Entry>>, b: nat, chain: seq<Entry>, p: nat, key: seq<Byte>, r: Option<Entry>)
    requires TableOk(table) && b == Bucket(p, key)
    requires NoTwins(chain) && forall e :: e in chain ==> Bucket(e.parent, Key(e.dentry.name)) == b
    requires forall q, k :: InChain(chain, q, k) == if q == p && k == key then r else InChain(table[b], q, k)
    ensures TableOk(table[b := chain]) && OnlyAt(table, table[b := chain], p, key, r)
  {
    var table' := table[b := chain];
    forall c ensures ChainOk(table', c) { assert ChainOk(table, c); }
  }

  lemma PutOver(table: seq<seq<Entry>>, b: nat, i: nat, e: Entry)
    requires TableOk(table) && b == Bucket(e.parent, Key(e.dentry.name)) && i < |table[b]|
    requires table[b][i].Is(e.parent, Key(e.dentry.name))
    ensures TableOk(table[b := table[b][i := e]])
    ensures OnlyAt(table, table[b := table[b][i := e]], e.parent, Key(e.dentry.name), Some(e))
  {
    var chain := table[b];
    var chain' := chain[i := e];
    assert ChainOk(table, b);
    forall q, k
      ensures InChain(chain', q, k) == if q == e.parent && k == Key(e.dentry.name) then Some(e) else InChain(chain, q, k)
    {
      ChainSet(chain, i, e, q, k);
    }
    ChainSet(chain, i, e, e.parent, Key(e.dentry.name));
    ReplacedChain(table, b, chain', e.parent, Key(e.dentry.name), Some(e));
  }

  lemma PutNew(table: seq<seq<Entry>>, b: nat, e: Entry)
    requires TableOk(table) && b == Bucket(e.parent, Key(e.dentry.name))
    requires InChain(table[b], e.parent, Key(e.dentry.name)) == None
    ensures TableOk(table[b := [e] + table[b]])
    ensures OnlyAt(table, table[b := [e] + table[b]], e.parent, Key(e.dentry.name), Some(e))
  {
    var chain := table[b];
    var chain' := [e] + chain;
    assert ChainOk(table, b);
    forall q, k
      ensures InChain(chain', q, k) == if q == e.parent && k == Key(e.dentry.name) then Some(e) else InChain(chain, q, k)
    {
      ChainPush(chain, e, q, k);
    }
    ChainPush(chain, e, e.parent, Key(e.dentry.name));
    ReplacedChain(table, b, chain', e.parent, Key(e.dentry.name), Some(e));
  }

  class Cache {
    var table: seq<seq<Entry>>
    var enabled: bool

    /** The chains are well filed, and a disabled cache is empty. */
    ghost predicate Valid()
      reads this
    {
      TableOk(table) && (!enabled ==> forall p, key :: Known(table, p, key) == None)
    }

    ghost function Knows(p: nat, key: seq<Byte>): Option<Entry>
      reads this
      requires Valid()
    {
      Known(table, p, key)
    }

    constructor ()
      ensures Valid() && enabled && forall p, key :: Knows(p, key) == None
    {
      table := seq(DENTRY_CACHE_BUCKETS, _ => []);
      enabled := true;
      new;
      forall b ensures ChainOk(table, b) {}
    }

    /** The loop over a name's bytes, for any mixing step. */
    static method FoldName<H>(mix: (H, Byte) -> H, h0: H, name: seq<Byte>) returns (hash: H, i: nat)
      ensures hash == Fold(mix, h0, Key(name)) && i == |Key(name)|
    {
      hash, i := h0, 0;
      while i < MAX_FILE_NAME && At(name, i) != 0
        invariant 0 <= i <= MAX_FILE_NAME && i + |KeyFrom(name, i)| == |Key(name)|
        invariant Fold(mix, hash, KeyFrom(name, i)) == Fold(mix, h0, Key(name))
      {
        assert KeyFrom(name, i)[1..] == KeyFrom(name, i + 1);
        hash := mix(hash, At(name, i));
        i := i + 1;
      }
    }

    /** FNV-1a over the name's bytes and its length. */
    method Hash(parent: nat, name: seq<Byte>) returns (b: nat)
      ensures b == Bucket(parent, Key(name))
    {
      var hash, i := FoldName(Mix, Seed(parent), name);
      b := Finish(hash, i);
    }

    method Search(chain: seq<Entry>, parent: nat, name: seq<Byte>) returns (i: nat)
      ensures i == FindFrom(chain, parent, Key(name), 0)
    {
      i := 0;
      while i < |chain|
        invariant i <= |chain| && forall j :: 0 <= j < i ==> !chain[j].Is(parent, Key(name))
      {
        if chain[i].parent == parent {
          var r := Compare(chain[i].dentry.name, name);
          if r == 0 {
            return;
          }
        }
        i := i + 1;
      }
    }

    method Get(parent: nat, name: seq<Byte>) returns (r: Option<Entry>)
      requires Valid()
      ensures r == Knows(parent, Key(name))
    {
      var b := Hash(parent, name);
      if !enabled {
        return None;
      }
      var i := Search(table[b], parent, name);
      r := if i < |table[b]| then Some(table[b][i]) else None;
    }

    /** Records an entry; it is dropped when the cache is off, the entry is unused, or memory ran out. */
    method Put(parent: nat, dentry: Dentry, offset: nat, granted: bool)
      requires Valid()
      modifies this`table
      ensures Valid()
      ensures OnlyAt(old(table), table, parent, Key(dentry.name),
                     AfterPut(enabled, granted, old(Knows(parent, Key(dentry.name))), Entry(parent, offset, dentry)))
    {
      if dentry.ino == 0 {
        return;
      }
      var b := Hash(parent, dentry.name);
      if !enabled {
        return;
      }
      var chain := table[b];
      var e := Entry(parent, offset, dentry);
      var i := Search(chain, parent, dentry.name);
      assert ChainOk(table, b);
      if i < |chain| {
        PutOver(table, b, i, e);
        table := table[b := chain[i := e]];
      } else if granted {
        PutNew(table, b, e);
        table := table[b := [e] + chain];
      }
    }

    method Remove(parent: nat, name: seq<Byte>)
      requires Valid()
      modifies this`table
      ensures Valid() && OnlyAt(old(table), table, parent, Key(name), None)
    {
      var b := Hash(parent, name);
      if !enabled {
        return;
      }
      var chain := table[b];
      var i := Search(chain, parent, name);
      assert ChainOk(table, b);
      if i < |chain| {
        ghost var chain' := Without(chain, i);
        forall q, k
          ensures InChain(chain', q, k) == if q == parent && k == Key(name) then None else InChain(chain, q, k)
        {
          ChainDrop(chain, i, q, k);
        }
        ChainDrop(chain, i, parent, Key(name));
        ReplacedChain(table, b, chain', parent, Key(name), None);
        table := table[b := Without(chain, i)];
      }
    }

    /** Unlinks a directory's entries from one chain. */
    static method Strip(chain: seq<Entry>, parent: nat) returns (kept: seq<Entry>)
      ensures kept == Stripped(chain, parent)
    {
      kept := [];
      var i := 0;
      while i < |chain|
        invariant i <= |chain| && kept + Stripped(chain[i..], parent) == Stripped(chain, parent)
      {
        assert chain[i..][0] == chain[i] && chain[i..][1..] == chain[i + 1..];
        if chain[i].parent != parent {
          kept := kept + [chain[i]];
        }
        i := i + 1;
      }
    }

    /** Forgets every name of one directory. */
    method Invalidate(parent: nat)
      requires Valid()
      modifies this`table
      ensures Valid()
      ensures forall q, k :: Knows(q, k) == if q == parent then None else old(Knows(q, k))
    {
      if !enabled {
        return;
      }
      var i := 0;
      while i < DENTRY_CACHE_BUCKETS
        invariant 0 <= i <= DENTRY_CACHE_BUCKETS && |table| == DENTRY_CACHE_BUCKETS
        invariant forall b :: 0 <= b < DENTRY_CACHE_BUCKETS ==>
                    table[b] == if b < i then Stripped(old(table)[b], parent) else old(table)[b]
      {
        var kept := Strip(table[i], parent);
        table := table[i := kept];
        i := i + 1;
      }
      forall b ensures ChainOk(table, b) {
        assert ChainOk(old(table), b);
        if 0 <= b < |table| { StrippedKeeps(old(table)[b], parent, parent, []); }
      }
      forall q, k ensures Known(table, q, k) == if q == parent then None else Known(old(table), q, k) {
        assert ChainOk(old(table), Bucket(q, k));
        StrippedKeeps(old(table)[Bucket(q, k)], parent, q, k);
      }
    }

    method Reset()
      requires TableOk(table)
      modifies this`table
      ensures Valid() && forall p, key :: Knows(p, key) == None
    {
      var i := 0;
      while i < DENTRY_CACHE_BUCKETS
        invariant 0 <= i <= DENTRY_CACHE_BUCKETS && |table| == DENTRY_CACHE_BUCKETS
        invariant forall b :: 0 <= b < i ==> table[b] == []
      {
        table := table[i := []];
        i := i + 1;
      }
      forall b ensures ChainOk(table, b) {}
    }

    /** Switching the cache off, or changing the switch at all, empties it. */
    method SetEnabled(on: bool)
      requires Valid()
      modifies this
      ensures Valid() && enabled == on
      ensures forall p, key :: Knows(p, key) == if on == old(enabled) then old(Knows(p, key)) else None
    {
      var changed := enabled != on;
      enabled := on;
      if !on || changed {
        Reset();
      }
    }
  }
}
