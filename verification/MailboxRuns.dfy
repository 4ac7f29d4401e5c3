/** Runs of the mailbox: any number of processes call send and receive, and the scheduler interleaves
    their turns in any order. */
module MailboxRuns {
  import opened Common
  import opened Mailbox

  /** Where a process is in its call: between turns, queued on a condition, or woken and not yet run. */
  datatype Phase = Running | Waiting | Signalled

  datatype Call =
    | Idle
    | Sending(msg: seq<Byte>, sent: nat, phase: Phase)
    | Receiving(len: nat, got: seq<Byte>, phase: Phase)

  /** A process: its current call, and all bytes its finished calls sent and received. */
  datatype Proc = Proc(call: Call, pastSent: seq<Byte>, pastGot: seq<Byte>)

  datatype State = State(box: Box, procs: map<Pid, Proc>, sentLog: seq<(Pid, Byte)>, recvLog: seq<(Pid, Byte)>)

  datatype Event = CallSend(p: Pid, msg: seq<Byte>) | CallRecv(p: Pid, len: nat) | Turn(p: Pid)

  function ProcOf(procs: map<Pid, Proc>, p: Pid): Proc {
    if p in procs then procs[p] else Proc(Idle, [], [])
  }

  predicate Runnable(c: Call) { !c.Idle? && !c.phase.Waiting? }

  function WithPhase(pr: Proc, ph: Phase): Proc {
    match pr.call
    case Idle => pr
    case Sending(m, s, _) => pr.(call := Sending(m, s, ph))
    case Receiving(l, g, _) => pr.(call := Receiving(l, g, ph))
  }

  /** condition_signal: the process at the head of the queue becomes runnable. */
  function WakeFirst(procs: map<Pid, Proc>, q: seq<Pid>): map<Pid, Proc> {
    if q == [] then procs else procs[q[0] := WithPhase(ProcOf(procs, q[0]), Signalled)]
  }

  /** The process after one more byte of its message has been sent. */
  function Advanced(pr: Proc): Proc
    requires pr.call.Sending? && pr.call.sent < |pr.call.msg|
  {
    if pr.call.sent + 1 == |pr.call.msg| then Proc(Idle, pr.pastSent + pr.call.msg, pr.pastGot)
    else pr.(call := Sending(pr.call.msg, pr.call.sent + 1, Running))
  }

  /** The process after it has received one more byte. */
  function Fetched(pr: Proc, b: Byte): Proc
    requires pr.call.Receiving?
  {
    if |pr.call.got| + 1 >= pr.call.len then Proc(Idle, pr.pastSent, pr.pastGot + pr.call.got + [b])
    else pr.(call := Receiving(pr.call.len, pr.call.got + [b], Running))
  }

  function SendStep(s: State, p: Pid): State
    requires p in s.procs && s.procs[p].call.Sending? && s.procs[p].call.sent < |s.procs[p].call.msg|
  {
    var pr := s.procs[p];
    var b := pr.call.msg[pr.call.sent];
    if |s.box.buf| < MAX_MBOX_LENGTH then
      State(Put(s.box, p, b), WakeFirst(s.procs[p := Advanced(pr)], s.box.empty), s.sentLog + [(p, b)], s.recvLog)
    else
      s.(box := Put(s.box, p, b), procs := s.procs[p := WithPhase(pr, Waiting)])
  }

  function RecvStep(s: State, p: Pid): State
    requires p in s.procs && s.procs[p].call.Receiving?
  {
    var pr := s.procs[p];
    if |s.box.buf| > 0 then
      var b := s.box.buf[0];
      State(Take(s.box, p), WakeFirst(s.procs[p := Fetched(pr, b)], s.box.full), s.sentLog, s.recvLog + [(p, b)])
    else
      s.(box := Take(s.box, p), procs := s.procs[p := WithPhase(pr, Waiting)])
  }

  /** The effect of one event; one that cannot happen changes nothing. */
  function Step(s: State, e: Event): State {
    match e
    case CallSend(p, msg) =>
      if ProcOf(s.procs, p).call.Idle? && msg != [] then
        s.(procs := s.procs[p := ProcOf(s.procs, p).(call := Sending(msg, 0, Running))])
      else s
    case CallRecv(p, len) =>
      if ProcOf(s.procs, p).call.Idle? && len > 0 then
        s.(procs := s.procs[p := ProcOf(s.procs, p).(call := Receiving(len, [], Running))])
      else s
    case Turn(p) =>
      var c := ProcOf(s.procs, p).call;
      if !Runnable(c) then s
      else if c.Receiving? then RecvStep(s, p)
      else if c.sent < |c.msg| then SendStep(s, p)
      else s
  }

  function Exec(s: State, es: seq<Event>): State
    decreases |es|
  {
    if es == [] then s else Exec(Step(s, es[0]), es[1..])
  }

  lemma {:induction false} ExecMore(s: State, es: seq<Event>, e: Event)
    ensures Exec(s, es + [e]) == Step(Exec(s, es), e)
    decreases |es|
  {
    if es == [] {
      assert [e][1..] == [];
    } else {
      assert (es + [e])[1..] == es[1..] + [e];
      ExecMore(Step(s, es[0]), es[1..], e);
    }
  }

  const INIT := State(Box([], [], []), map[], [], [])

  // ---- the invariant ----

  function Bytes(log: seq<(Pid, Byte)>): seq<Byte> {
    seq<Byte>(|log|, i requires 0 <= i < |log| => log[i].1)
  }

  /** The bytes of a log that belong to p, in order. */
  function By(log: seq<(Pid, Byte)>, p: Pid): seq<Byte> {
    if log == [] then []
    else
      var last := log[|log| - 1];
      By(log[..|log| - 1], p) + if last.0 == p then [last.1] else []
  }

  lemma ByAppend(log: seq<(Pid, Byte)>, p: Pid, e: (Pid, Byte))
    ensures By(log + [e], p) == By(log, p) + if e.0 == p then [e.1] else []
  {
    assert (log + [e])[..|log|] == log;
  }

  function SentSoFar(pr: Proc): seq<Byte> {
    pr.pastSent + if pr.call.Sending? && pr.call.sent <= |pr.call.msg| then pr.call.msg[..pr.call.sent] else []
  }

  function GotSoFar(pr: Proc): seq<Byte> {
    pr.pastGot + if pr.call.Receiving? then pr.call.got else []
  }

  /** p's call is unfinished, and the logs hold exactly what p sent and received, in its order. */
  ghost predicate ProcOk(s: State, p: Pid) {
    var pr := ProcOf(s.procs, p);
    && (pr.call.Sending? ==> pr.call.sent < |pr.call.msg|)
    && (pr.call.Receiving? ==> |pr.call.got| < pr.call.len)
    && By(s.sentLog, p) == SentSoFar(pr)
    && By(s.recvLog, p) == GotSoFar(pr)
  }

  ghost predicate QueuedOk(s: State, p: Pid) {
    var c := ProcOf(s.procs, p).call;
    && (p in s.box.empty <==> c.Receiving? && c.phase.Waiting?)
    && (p in s.box.full <==> c.Sending? && c.phase.Waiting?)
  }

  /** Receivers that were signalled and have not run since. */
  function WokenReceivers(procs: map<Pid, Proc>): set<Pid> {
    set p | p in procs && procs[p].call.Receiving? && procs[p].call.phase.Signalled?
  }

  function WokenSenders(procs: map<Pid, Proc>): set<Pid> {
    set p | p in procs && procs[p].call.Sending? && procs[p].call.phase.Signalled?
  }

  ghost predicate Logged(s: State) {
    && |s.box.buf| <= MAX_MBOX_LENGTH
    && Bytes(s.sentLog) == Bytes(s.recvLog) + s.box.buf
    && forall p :: ProcOk(s, p)
  }

  ghost predicate Queued(s: State) {
    Distinct(s.box.empty) && Distinct(s.box.full) && forall p :: QueuedOk(s, p)
  }

  /** While a receiver waits, every buffered byte has a woken receiver coming for it; while a sender
      waits, every free slot has a woken sender coming for it. */
  ghost predicate Covered(s: State) {
    && (s.box.empty != [] ==> |s.box.buf| <= |WokenReceivers(s.procs)|)
    && (s.box.full != [] ==> MAX_MBOX_LENGTH - |s.box.buf| <= |WokenSenders(s.procs)|)
  }

  ghost predicate Inv(s: State) { Logged(s) && Queued(s) && Covered(s) }

  lemma BytesAppend(log: seq<(Pid, Byte)>, e: (Pid, Byte))
    ensures Bytes(log + [e]) == Bytes(log) + [e.1]
  {
  }

  // ---- logs ----

  lemma SendLogged(s: State, p: Pid)
    requires Logged(s) && p in s.procs && s.procs[p].call.Sending?
    requires s.procs[p].call.sent < |s.procs[p].call.msg|
    ensures Logged(SendStep(s, p))
  {
    var s' := SendStep(s, p);
    var pr := s.procs[p];
    var b := pr.call.msg[pr.call.sent];
    BytesAppend(s.sentLog, (p, b));
    assert ProcOk(s, p);
    forall x ensures ProcOk(s', x) { assert ProcOk(s, x); SendProcOk(s, p, x); }
  }

  lemma SendProcOk(s: State, p: Pid, x: Pid)
    requires ProcOk(s, p) && ProcOk(s, x) && p in s.procs && s.procs[p].call.Sending?
    ensures ProcOk(SendStep(s, p), x)
  {
    if |s.box.buf| < MAX_MBOX_LENGTH {
      ByAppend(s.sentLog, x, (p, s.procs[p].call.msg[s.procs[p].call.sent]));
      WakeKeeps(s.procs[p := Advanced(s.procs[p])], s.box.empty, x);
      if x == p { AdvancedSent(s.procs[p]); }
    }
  }

  lemma AdvancedSent(pr: Proc)
    requires pr.call.Sending? && pr.call.sent < |pr.call.msg|
    ensures SentSoFar(Advanced(pr)) == SentSoFar(pr) + [pr.call.msg[pr.call.sent]]
    ensures GotSoFar(Advanced(pr)) == GotSoFar(pr)
  {
    var c := pr.call;
    assert c.msg[..c.sent + 1] == c.msg[..c.sent] + [c.msg[c.sent]];
    assert c.sent + 1 == |c.msg| ==> c.msg[..c.sent + 1] == c.msg;
  }

  /** Being woken changes nothing a process has done or has to do. */
  lemma WakeKeeps(procs: map<Pid, Proc>, q: seq<Pid>, x: Pid)
    ensures var pr, pr' := ProcOf(procs, x), ProcOf(WakeFirst(procs, q), x);
      && SentSoFar(pr') == SentSoFar(pr) && GotSoFar(pr') == GotSoFar(pr)
      && (pr.call.Sending? <==> pr'.call.Sending?) && (pr.call.Receiving? <==> pr'.call.Receiving?)
      && (pr.call.Sending? ==> pr'.call.sent == pr.call.sent && pr'.call.msg == pr.call.msg)
      && (pr.call.Receiving? ==> pr'.call.got == pr.call.got && pr'.call.len == pr.call.len)
  {
  }

  lemma RecvLogged(s: State, p: Pid)
    requires Logged(s) && p in s.procs && s.procs[p].call.Receiving?
    ensures Logged(RecvStep(s, p))
  {
    var s' := RecvStep(s, p);
    if |s.box.buf| > 0 {
      var b := s.box.buf[0];
      BytesAppend(s.recvLog, (p, b));
      assert s.box.buf == [b] + s.box.buf[1..];
      forall x ensures ProcOk(s', x) {
        assert ProcOk(s, x);
        ByAppend(s.recvLog, x, (p, b));
      }
    } else {
      forall x ensures ProcOk(s', x) {
        assert ProcOk(s, x);
      }
    }
  }

  // ---- queues ----

  lemma SendQueued(s: State, p: Pid)
    requires Queued(s) && p in s.procs && s.procs[p].call.Sending? && !s.procs[p].call.phase.Waiting?
    requires s.procs[p].call.sent < |s.procs[p].call.msg|
    ensures Queued(SendStep(s, p))
  {
    var s' := SendStep(s, p);
    assert QueuedOk(s, p);
    forall x ensures QueuedOk(s', x) {
      assert QueuedOk(s, x);
      HeadTail(s.box.empty, x);
    }
  }

  lemma RecvQueued(s: State, p: Pid)
    requires Queued(s) && p in s.procs && s.procs[p].call.Receiving? && !s.procs[p].call.phase.Waiting?
    ensures Queued(RecvStep(s, p))
  {
    var s' := RecvStep(s, p);
    assert QueuedOk(s, p);
    forall x ensures QueuedOk(s', x) {
      assert QueuedOk(s, x);
      HeadTail(s.box.full, x);
    }
  }

  lemma HeadTail(q: seq<Pid>, x: Pid)
    requires Distinct(q)
    ensures x in Tail(q) <==> x in q && x != q[0]
  {
    if q != [] { assert q == [q[0]] + q[1..]; }
  }

  // ---- no stranded waiter ----

  lemma CardUpdate(S: set<Pid>, S': set<Pid>, p: Pid)
    requires forall x :: x != p ==> (x in S <==> x in S')
    ensures |S'| == |S| + (if p in S' then 1 else 0) - (if p in S then 1 else 0)
  {
    assert S' - {p} == S - {p};
    assert |S - {p}| == |S| - if p in S then 1 else 0;
    assert |S' - {p}| == |S'| - if p in S' then 1 else 0;
  }

  /** Changing one process changes the two counts by at most that process. */
  lemma WokenUpdate(procs: map<Pid, Proc>, p: Pid, pr: Proc)
    ensures var procs' := procs[p := pr];
      && |WokenReceivers(procs')| == |WokenReceivers(procs)|
           + (if p in WokenReceivers(procs') then 1 else 0) - (if p in WokenReceivers(procs) then 1 else 0)
      && |WokenSenders(procs')| == |WokenSenders(procs)|
           + (if p in WokenSenders(procs') then 1 else 0) - (if p in WokenSenders(procs) then 1 else 0)
  {
    var procs' := procs[p := pr];
    CardUpdate(WokenReceivers(procs), WokenReceivers(procs'), p);
    CardUpdate(WokenSenders(procs), WokenSenders(procs'), p);
  }

  lemma SendCovered(s: State, p: Pid)
    requires Inv(s) && p in s.procs && s.procs[p].call.Sending? && !s.procs[p].call.phase.Waiting?
    requires s.procs[p].call.sent < |s.procs[p].call.msg|
    ensures Covered(SendStep(s, p))
  {
    var pr := s.procs[p];
    assert QueuedOk(s, p);
    if |s.box.buf| < MAX_MBOX_LENGTH {
      var procs1 := s.procs[p := Advanced(pr)];
      WokenUpdate(s.procs, p, Advanced(pr));
      if s.box.empty != [] {
        var q := s.box.empty[0];
        assert QueuedOk(s, q);
        WokenUpdate(procs1, q, WithPhase(ProcOf(procs1, q), Signalled));
      }
    } else {
      WokenUpdate(s.procs, p, WithPhase(pr, Waiting));
    }
  }

  lemma RecvCovered(s: State, p: Pid)
    requires Inv(s) && p in s.procs && s.procs[p].call.Receiving? && !s.procs[p].call.phase.Waiting?
    ensures Covered(RecvStep(s, p))
  {
    var pr := s.procs[p];
    assert QueuedOk(s, p);
    if |s.box.buf| > 0 {
      var procs1 := s.procs[p := Fetched(pr, s.box.buf[0])];
      WokenUpdate(s.procs, p, Fetched(pr, s.box.buf[0]));
      if s.box.full != [] {
        var q := s.box.full[0];
        assert QueuedOk(s, q);
        WokenUpdate(procs1, q, WithPhase(ProcOf(procs1, q), Signalled));
      }
    } else {
      WokenUpdate(s.procs, p, WithPhase(pr, Waiting));
    }
  }

  ghost predicate Fresh(c: Call) {
    !c.Idle? && c.phase.Running? && if c.Sending? then c.sent == 0 < |c.msg| else c.got == [] && c.len > 0
  }

  function Begin(s: State, p: Pid, c: Call): State { s.(procs := s.procs[p := ProcOf(s.procs, p).(call := c)]) }

  lemma CallProcOk(s: State, p: Pid, c: Call, x: Pid)
    requires ProcOk(s, x) && QueuedOk(s, x) && ProcOf(s.procs, p).call.Idle? && Fresh(c)
    ensures ProcOk(Begin(s, p, c), x) && QueuedOk(Begin(s, p, c), x)
  {
  }

  lemma CallKeeps(s: State, p: Pid, c: Call)
    requires Inv(s) && ProcOf(s.procs, p).call.Idle? && Fresh(c)
    ensures Inv(Begin(s, p, c))
  {
    var s' := Begin(s, p, c);
    forall x ensures ProcOk(s', x) && QueuedOk(s', x) {
      assert ProcOk(s, x) && QueuedOk(s, x);
      CallProcOk(s, p, c, x);
    }
    WokenUpdate(s.procs, p, ProcOf(s.procs, p).(call := c));
  }

  lemma StepKeeps(s: State, e: Event)
    requires Inv(s)
    ensures Inv(Step(s, e))
  {
    match e
    case CallSend(p, msg) =>
      if ProcOf(s.procs, p).call.Idle? && msg != [] { CallKeeps(s, p, Sending(msg, 0, Running)); }
    case CallRecv(p, len) =>
      if ProcOf(s.procs, p).call.Idle? && len > 0 { CallKeeps(s, p, Receiving(len, [], Running)); }
    case Turn(p) =>
      var c := ProcOf(s.procs, p).call;
      if Runnable(c) {
        if c.Receiving? {
          RecvLogged(s, p);
          RecvQueued(s, p);
          RecvCovered(s, p);
        } else if c.sent < |c.msg| {
          SendLogged(s, p);
          SendQueued(s, p);
          SendCovered(s, p);
        }
      }
  }

  lemma {:induction false} RunKeeps(s: State, es: seq<Event>)
    requires Inv(s)
    ensures Inv(Exec(s, es))
    decreases |es|
  {
    if es != [] {
      StepKeeps(s, es[0]);
      RunKeeps(Step(s, es[0]), es[1..]);
    }
  }

  // ---- what was asked for ----

  /** The bytes an event asks p to send: those of its message, if p is free to call. */
  function Offer(s: State, e: Event, p: Pid): seq<Byte> {
    if e.CallSend? && e.p == p && ProcOf(s.procs, p).call.Idle? then e.msg else []
  }

  /** How many bytes an event asks p to receive. */
  function Demand(s: State, e: Event, p: Pid): nat {
    if e.CallRecv? && e.p == p && ProcOf(s.procs, p).call.Idle? then e.len else 0
  }

  /** The messages of p's calls in a run, one after another. */
  function Offered(s: State, es: seq<Event>, p: Pid): seq<Byte>
    decreases |es|
  {
    if es == [] then [] else Offer(s, es[0], p) + Offered(Step(s, es[0]), es[1..], p)
  }

  /** The lengths of p's calls to receive in a run, added up. */
  function Demanded(s: State, es: seq<Event>, p: Pid): nat
    decreases |es|
  {
    if es == [] then 0 else Demand(s, es[0], p) + Demanded(Step(s, es[0]), es[1..], p)
  }

  /** What the call p is in has still to send, and to receive. */
  function Unsent(pr: Proc): seq<Byte> {
    if pr.call.Sending? && pr.call.sent <= |pr.call.msg| then pr.call.msg[pr.call.sent..] else []
  }

  function Ungot(pr: Proc): int { if pr.call.Receiving? then pr.call.len - |pr.call.got| else 0 }

  /** Being woken changes nothing a process has to do. */
  lemma WakeOwes(procs: map<Pid, Proc>, q: seq<Pid>, x: Pid)
    ensures Unsent(ProcOf(WakeFirst(procs, q), x)) == Unsent(ProcOf(procs, x))
    ensures Ungot(ProcOf(WakeFirst(procs, q), x)) == Ungot(ProcOf(procs, x))
  {
  }

  lemma AdvancedOwes(pr: Proc, log: seq<Byte>)
    requires pr.call.Sending? && pr.call.sent < |pr.call.msg|
    ensures log + [pr.call.msg[pr.call.sent]] + Unsent(Advanced(pr)) == log + Unsent(pr)
    ensures Ungot(Advanced(pr)) == Ungot(pr)
  {
    var c := pr.call;
    assert c.msg[c.sent..] == [c.msg[c.sent]] + c.msg[c.sent + 1..];
    assert Unsent(Advanced(pr)) == c.msg[c.sent + 1..];
  }

  lemma SendOwes(s: State, q: Pid, p: Pid)
    requires q in s.procs && s.procs[q].call.Sending? && s.procs[q].call.sent < |s.procs[q].call.msg|
    ensures By(SendStep(s, q).sentLog, p) + Unsent(ProcOf(SendStep(s, q).procs, p)) ==
            By(s.sentLog, p) + Unsent(ProcOf(s.procs, p))
    ensures SendStep(s, q).recvLog == s.recvLog && Ungot(ProcOf(SendStep(s, q).procs, p)) == Ungot(ProcOf(s.procs, p))
  {
    if |s.box.buf| < MAX_MBOX_LENGTH {
      var c := s.procs[q].call;
      ByAppend(s.sentLog, p, (q, c.msg[c.sent]));
      WakeOwes(s.procs[q := Advanced(s.procs[q])], s.box.empty, p);
      AdvancedOwes(s.procs[q], By(s.sentLog, p));
    }
  }

  lemma RecvOwes(s: State, q: Pid, p: Pid)
    requires q in s.procs && s.procs[q].call.Receiving? && |s.procs[q].call.got| < s.procs[q].call.len
    ensures |By(RecvStep(s, q).recvLog, p)| + Ungot(ProcOf(RecvStep(s, q).procs, p)) ==
            |By(s.recvLog, p)| + Ungot(ProcOf(s.procs, p))
    ensures RecvStep(s, q).sentLog == s.sentLog
    ensures Unsent(ProcOf(RecvStep(s, q).procs, p)) == Unsent(ProcOf(s.procs, p))
  {
    if s.box.buf != [] {
      var b := s.box.buf[0];
      ByAppend(s.recvLog, p, (q, b));
      WakeOwes(s.procs[q := Fetched(s.procs[q], b)], s.box.full, p);
    }
  }

  /** What p has sent and has still to send grows by what it is asked to, and by nothing else; so does what it
      receives. */
  lemma StepOwes(s: State, e: Event, p: Pid)
    requires Inv(s)
    ensures By(Step(s, e).sentLog, p) + Unsent(ProcOf(Step(s, e).procs, p)) ==
            By(s.sentLog, p) + Unsent(ProcOf(s.procs, p)) + Offer(s, e, p)
    ensures |By(Step(s, e).recvLog, p)| + Ungot(ProcOf(Step(s, e).procs, p)) ==
            |By(s.recvLog, p)| + Ungot(ProcOf(s.procs, p)) + Demand(s, e, p)
  {
    var had := By(s.sentLog, p) + Unsent(ProcOf(s.procs, p));
    assert had + [] == had;
    assert ProcOk(s, e.p);
    var c := ProcOf(s.procs, e.p).call;
    if e.Turn? && Runnable(c) {
      if c.Receiving? { RecvOwes(s, e.p, p); } else { SendOwes(s, e.p, p); }
    }
  }

  lemma {:induction false} RunOwes(s: State, es: seq<Event>, p: Pid)
    requires Inv(s)
    ensures By(Exec(s, es).sentLog, p) + Unsent(ProcOf(Exec(s, es).procs, p)) ==
            By(s.sentLog, p) + Unsent(ProcOf(s.procs, p)) + Offered(s, es, p)
    ensures |By(Exec(s, es).recvLog, p)| + Ungot(ProcOf(Exec(s, es).procs, p)) ==
            |By(s.recvLog, p)| + Ungot(ProcOf(s.procs, p)) + Demanded(s, es, p)
    decreases |es|
  {
    if es != [] {
      StepKeeps(s, es[0]);
      StepOwes(s, es[0], p);
      RunOwes(Step(s, es[0]), es[1..], p);
      var had, o, more := By(s.sentLog, p) + Unsent(ProcOf(s.procs, p)), Offer(s, es[0], p),
        Offered(Step(s, es[0]), es[1..], p);
      assert had + o + more == had + (o + more);
    }
  }

  /** So in a run from the start. */
  lemma FromStart(es: seq<Event>, p: Pid)
    ensures var s := Exec(INIT, es);
      && Inv(s) && Offered(INIT, es, p) == By(s.sentLog, p) + Unsent(ProcOf(s.procs, p))
      && Demanded(INIT, es, p) == |By(s.recvLog, p)| + Ungot(ProcOf(s.procs, p))
  {
    assert Inv(INIT) by { assert forall p :: ProcOk(INIT, p) && QueuedOk(INIT, p); }
    RunKeeps(INIT, es);
    RunOwes(INIT, es, p);
    var none: seq<Byte> := [];
    assert none + none + Offered(INIT, es, p) == Offered(INIT, es, p);
  }

  /** In every run each process has sent a prefix of the messages it called send with, all of them if it is in no
      call, and if it is in no call it has received as many bytes as it asked for. */
  lemma WholeMessages(es: seq<Event>, p: Pid)
    ensures var s := Exec(INIT, es);
      && By(s.sentLog, p) <= Offered(INIT, es, p) && |By(s.recvLog, p)| <= Demanded(INIT, es, p)
      && (ProcOf(s.procs, p).call.Idle? ==>
            By(s.sentLog, p) == Offered(INIT, es, p) && |By(s.recvLog, p)| == Demanded(INIT, es, p))
  {
    FromStart(es, p);
    assert ProcOk(Exec(INIT, es), p);
  }

  /** In every run the received bytes are a prefix, in order, of the sent bytes, and what is missing is what is
      buffered. What each process sent is a prefix of the messages it called send with, in its own order, and the whole
      of them once it is in no call; it has then received as many bytes as it asked for. */
  lemma FifoDelivery(es: seq<Event>, p: Pid)
    ensures var s := Exec(INIT, es);
      && Bytes(s.recvLog) <= Bytes(s.sentLog)
      && Bytes(s.sentLog)[|s.recvLog|..] == s.box.buf && |s.box.buf| <= 256
      && By(s.sentLog, p) == SentSoFar(ProcOf(s.procs, p)) <= Offered(INIT, es, p)
      && By(s.recvLog, p) == GotSoFar(ProcOf(s.procs, p)) && |By(s.recvLog, p)| <= Demanded(INIT, es, p)
      && (ProcOf(s.procs, p).call.Idle? ==>
            By(s.sentLog, p) == Offered(INIT, es, p) && |By(s.recvLog, p)| == Demanded(INIT, es, p))
  {
    WholeMessages(es, p);
    FromStart(es, p);
    assert ProcOk(Exec(INIT, es), p);
  }

  /** A process that can run and finds room sends the next byte of what it was asked to; one that finds a byte
      receives it. */
  lemma TurnGoesOn(es: seq<Event>, p: Pid)
    requires Runnable(ProcOf(Exec(INIT, es).procs, p).call)
    ensures var s, s' := Exec(INIT, es), Exec(INIT, es + [Turn(p)]);
      && (ProcOf(s.procs, p).call.Sending? && |s.box.buf| < 256 ==>
            var n := |By(s.sentLog, p)|;
            n < |Offered(INIT, es, p)| && s'.sentLog == s.sentLog + [(p, Offered(INIT, es, p)[n])])
      && (ProcOf(s.procs, p).call.Receiving? && s.box.buf != [] ==>
            s'.recvLog == s.recvLog + [(p, s.box.buf[0])])
  {
    var s := Exec(INIT, es);
    ExecMore(INIT, es, Turn(p));
    FromStart(es, p);
    assert ProcOk(s, p);
  }

  /** In every run, if a receiver waits while bytes are buffered then a signalled receiver is about to run,
      and if a sender waits while there is room then a signalled sender is. */
  lemma NobodyStranded(es: seq<Event>)
    ensures var s := Exec(INIT, es);
      && (s.box.empty != [] && s.box.buf != [] ==> WokenReceivers(s.procs) != {})
      && (s.box.full != [] && |s.box.buf| < 256 ==> WokenSenders(s.procs) != {})
      && Covered(s)
  {
    assert Inv(INIT) by { assert forall p :: ProcOk(INIT, p) && QueuedOk(INIT, p); }
    RunKeeps(INIT, es);
  }

  // ---- the mailbox itself ----

  /** A process's turn at its send loop, on the mailbox. */
  method CarrySend(m: Mbox, procs: map<Pid, Proc>, p: Pid, ghost s: State) returns (procs': map<Pid, Proc>,
                   ghost s': State)
    requires m.Valid() && s.box == m.View() && s.procs == procs && p in procs
    requires procs[p].call.Sending? && procs[p].call.sent < |procs[p].call.msg|
    modifies m, m.buffer
    ensures m.Valid() && s' == SendStep(s, p) && s'.box == m.View() && s'.procs == procs'
  {
    var pr, waiting := procs[p], m.empty;
    s' := SendStep(s, p);
    var sent := m.SendTurn(p, pr.call.msg[pr.call.sent]);
    procs' := if sent then WakeFirst(procs[p := Advanced(pr)], waiting) else procs[p := WithPhase(pr, Waiting)];
  }

  /** A process's turn at its receive loop, on the mailbox. */
  method CarryRecv(m: Mbox, procs: map<Pid, Proc>, p: Pid, ghost s: State) returns (procs': map<Pid, Proc>,
                   ghost s': State)
    requires m.Valid() && s.box == m.View() && s.procs == procs && p in procs && procs[p].call.Receiving?
    modifies m, m.buffer
    ensures m.Valid() && s' == RecvStep(s, p) && s'.box == m.View() && s'.procs == procs'
  {
    var pr, waiting := procs[p], m.full;
    s' := RecvStep(s, p);
    var got, b := m.RecvTurn(p);
    procs' := if got then WakeFirst(procs[p := Fetched(pr, b)], waiting) else procs[p := WithPhase(pr, Waiting)];
  }

  /** Every event of a run, carried out on the mailbox, is a step of the model. */
  method Carry(m: Mbox, procs: map<Pid, Proc>, e: Event, ghost s: State) returns (procs': map<Pid, Proc>, ghost s': State)
    requires m.Valid() && s.box == m.View() && s.procs == procs
    modifies m, m.buffer
    ensures m.Valid() && s' == Step(s, e) && s'.box == m.View() && s'.procs == procs'
  {
    procs', s' := procs, Step(s, e);
    match e
    case CallSend(p, msg) =>
      if ProcOf(procs, p).call.Idle? && msg != [] {
        procs' := procs[p := ProcOf(procs, p).(call := Sending(msg, 0, Running))];
      }
    case CallRecv(p, len) =>
      if ProcOf(procs, p).call.Idle? && len > 0 {
        procs' := procs[p := ProcOf(procs, p).(call := Receiving(len, [], Running))];
      }
    case Turn(p) =>
      var c := ProcOf(procs, p).call;
      if Runnable(c) {
        if c.Receiving? {
          procs', s' := CarryRecv(m, procs, p, s);
        } else if c.sent < |c.msg| {
          procs', s' := CarrySend(m, procs, p, s);
        }
      }
  }

  /** Any series of events on a new mailbox is a run of the model, so what is proved of runs holds of the mailbox: its
      contents are the bytes sent and not yet received, in order, and nobody is stranded. */
  method Drive(es: seq<Event>) returns (m: Mbox, procs: map<Pid, Proc>, ghost s: State)
    ensures fresh(m) && fresh(m.buffer) && m.Valid() && s == Exec(INIT, es) && s.box == m.View() && s.procs == procs
    ensures Bytes(s.sentLog) == Bytes(s.recvLog) + m.View().buf && Covered(s)
  {
    m := new Mbox();
    procs, s := map[], INIT;
    var i := 0;
    while i < |es|
      invariant 0 <= i <= |es| && fresh(m) && fresh(m.buffer) && m.Valid()
      invariant s == Exec(INIT, es[..i]) && s.box == m.View() && s.procs == procs
    {
      ExecMore(INIT, es[..i], es[i]);
      assert es[..i + 1] == es[..i] + [es[i]];
      procs, s := Carry(m, procs, es[i], s);
      i := i + 1;
    }
    assert es[..i] == es;
    assert Inv(INIT) by { assert forall p :: ProcOk(INIT, p) && QueuedOk(INIT, p); }
    RunKeeps(INIT, es);
  }
}
