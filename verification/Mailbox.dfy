/** The mailbox: a 256-byte ring with two condition variables, over all interleavings of any number
    of senders and receivers. */
module Mailbox {
  import opened Common

  const MAX_MBOX_LENGTH := 256

  /** The mailbox as its users see it: the buffered bytes in order and the two queues of waiters. */
  datatype Box = Box(buf: seq<Byte>, empty: seq<Pid>, full: seq<Pid>)

  function Tail(q: seq<Pid>): seq<Pid> { if q == [] then [] else q[1..] }

  /** One turn of the send loop by p with byte b. */
  function Put(x: Box, p: Pid, b: Byte): Box {
    if |x.buf| < MAX_MBOX_LENGTH then Box(x.buf + [b], Tail(x.empty), x.full)
    else x.(full := x.full + [p])
  }

  /** One turn of the receive loop by p. */
  function Take(x: Box, p: Pid): Box {
    if |x.buf| > 0 then Box(x.buf[1..], x.empty, Tail(x.full))
    else x.(empty := x.empty + [p])
  }

  /** The ring bytes from head, k of them. */
  function Ring(buffer: seq<Byte>, head: nat, k: nat): seq<Byte>
    requires |buffer| == MAX_MBOX_LENGTH
  {
    seq<Byte>(k, i requires 0 <= i < k => buffer[(head + i) % MAX_MBOX_LENGTH])
  }

  lemma RingPut(buffer: seq<Byte>, head: nat, k: nat, b: Byte)
    requires |buffer| == MAX_MBOX_LENGTH && k < MAX_MBOX_LENGTH
    ensures Ring(buffer[(head + k) % MAX_MBOX_LENGTH := b], head, k + 1) == Ring(buffer, head, k) + [b]
  {
  }

  lemma NextSlot(head: nat, i: nat)
    requires head < MAX_MBOX_LENGTH && i > 0
    ensures ((head + 1) % MAX_MBOX_LENGTH + (i - 1)) % MAX_MBOX_LENGTH == (head + i) % MAX_MBOX_LENGTH
  {
  }

  lemma RingTake(buffer: seq<Byte>, head: nat, k: nat)
    requires |buffer| == MAX_MBOX_LENGTH && 0 < k && head < MAX_MBOX_LENGTH
    ensures Ring(buffer, head, k) == [buffer[head]] + Ring(buffer, (head + 1) % MAX_MBOX_LENGTH, k - 1)
  {
    var r := Ring(buffer, (head + 1) % MAX_MBOX_LENGTH, k - 1);
    forall i | 0 < i < k ensures r[i - 1] == Ring(buffer, head, k)[i] {
      NextSlot(head, i);
    }
  }

  class Mbox {
    const buffer: array<Byte>
    var head: nat
    var tail: nat
    var used: int
    var acquired: bool         // the mutex around the buffer
    var blockList: seq<Pid>    // processes blocked on that mutex
    var empty: seq<Pid>
    var full: seq<Pid>
    var ready: seq<Pid>        // processes made ready, in order

    /** Between scheduling points the mutex is free, nobody is blocked on it, and `used` is the distance
        around the ring from head to tail. */
    ghost predicate Valid()
      reads this, buffer
    {
      && buffer.Length == MAX_MBOX_LENGTH && head < MAX_MBOX_LENGTH && tail < MAX_MBOX_LENGTH
      && 0 <= used <= MAX_MBOX_LENGTH && tail == (head + used) % MAX_MBOX_LENGTH
      && !acquired && blockList == []
    }

    ghost function View(): Box
      reads this, buffer
      requires Valid()
    {
      Box(Ring(buffer[..], head, used), empty, full)
    }

    constructor ()
      ensures Valid() && View() == Box([], [], []) && ready == [] && fresh(buffer)
    {
      buffer := new Byte[MAX_MBOX_LENGTH](_ => 0);
      head, tail, used, acquired, blockList := 0, 0, 0, false, [];
      empty, full, ready := [], [], [];
    }

    /** Takes the mutex, or queues the caller and reports failure. */
    method MutexAcquire(p: Pid) returns (ok: bool)
      modifies this`acquired, this`blockList
      ensures ok == !old(acquired) && acquired
      ensures blockList == if ok then old(blockList) else old(blockList) + [p]
    {
      ok := !acquired;
      if ok {
        acquired := true;
      } else {
        blockList := blockList + [p];
      }
    }

    /** Frees the mutex and makes every process blocked on it ready. */
    method MutexRelease()
      modifies this`acquired, this`blockList, this`ready
      ensures !acquired && blockList == [] && ready == old(ready) + old(blockList)
    {
      acquired := false;
      while blockList != []
        invariant ready + blockList == old(ready) + old(blockList) && !acquired
        decreases |blockList|
      {
        ready, blockList := ready + [blockList[0]], blockList[1..];
      }
    }

    /** One turn of the send loop: the byte goes in and one waiting receiver is woken, or the buffer is
        full and the caller waits. The mutex never blocks anybody. */
    method SendTurn(p: Pid, b: Byte) returns (sent: bool)
      requires Valid()
      modifies this, buffer
      ensures Valid() && View() == Put(old(View()), p, b)
      ensures sent <==> |old(View()).buf| < MAX_MBOX_LENGTH
      ensures ready == if sent && old(empty) != [] then old(ready) + [old(empty)[0]] else old(ready)
    {
      var ok := MutexAcquire(p);
      assert ok;
      sent := used < MAX_MBOX_LENGTH;
      if sent {
        RingPut(buffer[..], head, used, b);
        buffer[tail] := b;
        assert buffer[..] == old(buffer[..])[tail := b];
        tail := (tail + 1) % MAX_MBOX_LENGTH;
        used := used + 1;
        if empty != [] {
          ready, empty := ready + [empty[0]], empty[1..];
        }
      } else {
        full := full + [p];
      }
      MutexRelease();
    }

    /** One turn of the receive loop: the oldest byte comes out and one waiting sender is woken, or the
        buffer is empty and the caller waits. */
    method RecvTurn(p: Pid) returns (got: bool, b: Byte)
      requires Valid()
      modifies this, buffer
      ensures Valid() && View() == Take(old(View()), p)
      ensures got <==> old(View()).buf != []
      ensures got ==> b == old(View()).buf[0]
      ensures ready == if got && old(full) != [] then old(ready) + [old(full)[0]] else old(ready)
    {
      var ok := MutexAcquire(p);
      assert ok;
      got, b := used > 0, 0;
      if got {
        RingTake(buffer[..], head, used);
        b := buffer[head];
        head := (head + 1) % MAX_MBOX_LENGTH;
        used := used - 1;
        if full != [] {
          ready, full := ready + [full[0]], full[1..];
        }
      } else {
        empty := empty + [p];
      }
      MutexRelease();
    }
  }
}
