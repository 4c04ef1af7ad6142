/** What each system call does, said of the process tables before and after it. */
module IpcLaws {
  import opened Words
  import opened ErrorCodes
  import opened Ipc
  import opened IpcInvariant

  /** The 64 bytes from `ptr` on lie in the process's layer, and their end is a 64-bit address. */
  predicate Inside(b: Process, ptr: nat) {
    b.layerBase <= ptr && ptr + 64 <= b.layerBase + b.layerSize && ptr + 64 < 0x1_0000_0000_0000_0000
  }

  predicate Dead(b: Process) { b.state == Empty || b.state == Exited }

  // ----- Handing over the CPU -----

  function SlotAfter(from': nat, k: nat): (r: nat)
    ensures r < 64
  {
    (from' + k) % 64
  }

  /** `n` is the `k`-th slot after `from'`, and the first runnable one. */
  ghost predicate FirstAt(procs: seq<Process>, from': nat, n: nat, k: nat) {
    && |procs| == 64 && 1 <= k <= 64 && n == SlotAfter(from', k) && procs[n].state == Runnable
    && forall j :: 1 <= j < k ==> procs[SlotAfter(from', j)].state != Runnable
  }

  ghost predicate NoneRunnable(procs: seq<Process>) { forall n :: 0 <= n < |procs| ==> procs[n].state != Runnable }

  /** The CPU goes to the first runnable slot after the current one, in cyclic order and with the
      current one last; without any, the machine halts. */
  ghost predicate HandsOver(s: Sys, s': Sys) {
    && |s'.procs| == 64
    && if NoneRunnable(s'.procs) then s'.halted && s'.current == s.current
       else !s'.halted && exists k: nat :: FirstAt(s'.procs, s.current, s'.current, k)
  }

  lemma {:induction false} ScanIs(procs: seq<Process>, c: nat, k: nat, n: nat)
    requires |procs| == 64 && k + n == 64 && c < 64
    requires forall j :: 1 <= j <= k ==> procs[SlotAfter(c, j)].state != Runnable
    ensures var r := Scan(procs, c, k, n);
            if r.Some? then exists i: nat :: FirstAt(procs, c, r.value, i)
            else forall j :: 1 <= j <= 64 ==> procs[SlotAfter(c, j)].state != Runnable
    decreases n
  {
    if n > 0 {
      var x := SlotAfter(c, k + 1);
      if procs[x].state == Runnable {
        assert FirstAt(procs, c, x, k + 1);
      } else {
        ScanIs(procs, c, k + 1, n - 1);
      }
    }
  }

  lemma AnySlot(c: nat, n: nat)
    requires c < 64 && n < 64
    ensures var k := if n > c then n - c else n + 64 - c; 1 <= k <= 64 && SlotAfter(c, k) == n
  {
  }

  lemma NextIs(procs: seq<Process>, c: nat)
    requires |procs| == 64 && c < 64
    ensures var r := NextRunnable(procs, c);
            && (r.None? <==> NoneRunnable(procs))
            && (r.Some? ==> exists k: nat :: FirstAt(procs, c, r.value, k))
  {
    ScanIs(procs, c, 0, 64);
    hide Scan, SlotAfter;
    if NextRunnable(procs, c).None? {
      forall n | 0 <= n < 64 ensures procs[n].state != Runnable {
        AnySlot(c, n);
      }
    }
  }

  lemma SwitchLaw(s: Sys)
    requires Sized(s)
    ensures HandsOver(s, Switch(s)) && Switch(s) == s.(current := Switch(s).current, halted := Switch(s).halted)
  {
    hide NextRunnable, FirstAt, NoneRunnable;
    NextIs(s.procs, s.current);
  }

  // ----- Messages -----

  /** `b'` has the 64 bytes that `a` has at `ap` in its memory at `bp`, and otherwise that of `b`. */
  ghost predicate Copied(a: Process, ap: nat, b: Process, bp: nat, b': Process) {
    && Inside(a, ap) && Inside(b, bp) && |a.memory| == a.layerSize && |b'.memory| == |b.memory| == b.layerSize
    && var at := bp - b.layerBase;
    && b'.memory[..at] == b.memory[..at] && b'.memory[at + 64..] == b.memory[at + 64..]
    && b'.memory[at..at + 64] == a.memory[ap - a.layerBase..ap - a.layerBase + 64]
  }

  function BytesAt(b: Process, ptr: nat): seq<byte> {
    if Inside(b, ptr) && |b.memory| == b.layerSize then b.memory[ptr - b.layerBase..ptr - b.layerBase + 64] else []
  }

  lemma InsideIs(b: Process, ptr: nat)
    ensures Contains(b, ptr, MSG) <==> Inside(b, ptr)
    ensures Mapped(b) && Inside(b, ptr) ==> Message(b, ptr) == BytesAt(b, ptr) && |Message(b, ptr)| == 64
  {
  }

  lemma WriteIs(a: Process, ap: nat, b: Process, bp: nat)
    requires Mapped(a) && Inside(a, ap) && Mapped(b) && Inside(b, bp)
    ensures |Message(a, ap)| == MSG && Copied(a, ap, b, bp, WriteMessage(b, bp, Message(a, ap)))
  {
  }

  // ----- The calls -----

  ghost predicate Sent(s: Sys, s': Sys, target: nat, ptr: nat, r: Option<int>)
    requires Sized(s)
  {
    var p, b := s.current, s.procs[s.current];
    if target == p || target >= 64 || Dead(s.procs[target]) then r == Some(ERR_INVALID_PROCESS) && s' == s
    else if !Inside(b, ptr) then r == Some(ERR_INVALID_POINTER) && s' == s
    else
      var t := s.procs[target];
      && r == None && HandsOver(s, s')
      && if t.state == BlockedOnReceive then
           var t' := s'.procs[target];
           && s'.procs == s.procs[target := t'][p :=
                b.(ipcBuffer := ptr, state := BlockedOnReply(target), pending := InSend)]
           && t' == t.(ipcPeer := p, state := Runnable, memory := t'.memory) && Copied(b, ptr, t, t.ipcBuffer, t')
           && s'.log == s.log + [SendStart(p, target, BytesAt(b, ptr)), Deliver(p, target, BytesAt(b, ptr))]
         else
           && s'.procs == s.procs[p := b.(ipcBuffer := ptr, state := BlockedOnSend(target), pending := InSend)]
           && s'.log == s.log + [SendStart(p, target, BytesAt(b, ptr))]
  }

  /** `p` is the lowest-numbered process that is blocked sending to `q`. */
  ghost predicate FirstSender(procs: seq<Process>, q: nat, p: nat) {
    && p < |procs| && procs[p].state == BlockedOnSend(q)
    && forall x :: 0 <= x < p ==> procs[x].state != BlockedOnSend(q)
  }

  ghost predicate Received(s: Sys, s': Sys, ptr: nat, r: Option<int>)
    requires Sized(s)
  {
    var q, b := s.current, s.procs[s.current];
    if !Inside(b, ptr) then r == Some(ERR_INVALID_POINTER) && s' == s
    else if forall x :: 0 <= x < 64 ==> s.procs[x].state != BlockedOnSend(q) then
      && r == None && HandsOver(s, s') && s'.log == s.log + [ReceiveStart(q)]
      && s'.procs == s.procs[q := b.(ipcBuffer := ptr, ipcPeer := 0, state := BlockedOnReceive, pending := InReceive)]
    else
      && r.Some? && r.value >= 0 && FirstSender(s.procs, q, r.value) && |s'.procs| == 64
      && var p: nat := r.value;
      var a, b' := s.procs[p], s'.procs[q];
      && s'.procs == s.procs[q := b'][p := a.(state := BlockedOnReply(q))] && s'.current == q && s'.halted == s.halted
      && b' == b.(ipcBuffer := ptr, memory := b'.memory) && Copied(a, a.ipcBuffer, b, ptr, b')
      && s'.log == s.log + [ReceiveStart(q), Deliver(p, q, BytesAt(a, a.ipcBuffer)), ReceiveReturn(q, p)]
  }

  ghost predicate Answered(s: Sys, s': Sys, target: nat, ptr: nat, r: int)
    requires Sized(s)
  {
    var q, b := s.current, s.procs[s.current];
    if target >= 64 || Dead(s.procs[target]) then r == ERR_INVALID_PROCESS && s' == s
    else if !Inside(b, ptr) then r == ERR_INVALID_POINTER && s' == s
    else if s.procs[target].state != BlockedOnReply(q) then r == ERR_INVALID_PROCESS && s' == s
    else
      && r == 0 && |s'.procs| == 64
      && var t, t' := s.procs[target], s'.procs[target];
      && s' == s.(procs := s.procs[target := t'], log := s.log + [Reply(q, target, BytesAt(b, ptr))])
      && t' == t.(ipcPeer := q, ipcBuffer := 0, state := Runnable, memory := t'.memory)
      && Copied(b, ptr, t, t.ipcBuffer, t')
  }

  /** The caller has ended; nobody else notices. */
  ghost predicate Ended(s: Sys, s': Sys)
    requires Sized(s)
  {
    && s'.procs == s.procs[s.current := s.procs[s.current].(state := Exited)]
    && s'.log == s.log + [Died(s.current)] && HandsOver(s, s')
  }

  ghost predicate Killed(s: Sys, s': Sys, pid: nat, r: bool)
    requires Sized(s)
  {
    && (r <==> pid < 64 && pid != s.current && !Dead(s.procs[pid]))
    && s' == if r then s.(procs := s.procs[pid := s.procs[pid].(state := Exited)], log := s.log + [Died(pid)]) else s
  }

  ghost predicate Yielded(s: Sys, s': Sys) { s'.procs == s.procs && s'.log == s.log && HandsOver(s, s') }

  /** A suspended call of the current process returns `r`. */
  ghost predicate Returned(s: Sys, s': Sys, r: int)
    requires Sized(s)
  {
    var p, b := s.current, s.procs[s.current];
    && r == (if b.pending == InSend then 0 else b.ipcPeer)
    && s' == s.(procs := s.procs[p := b.(pending := NoCall)],
                log := s.log + [if b.pending == InSend then SendReturn(p) else ReceiveReturn(p, b.ipcPeer)])
  }

  // ----- Each step keeps its law -----

  lemma MappedIn(s: Sys, p: nat)
    requires Inv(s) && p < 64
    ensures !Dead(s.procs[p]) ==> Mapped(s.procs[p])
    ensures !Dead(s.procs[p]) && s.procs[p].state != Runnable ==>
      Inside(s.procs[p], s.procs[p].ipcBuffer)
  {
    assert Agrees(s.procs[p], s.log, p);
    hide PhaseOf, WaitOf;
  }

  lemma Ready(s: Sys)
    requires Inv(s) && !s.halted
    ensures Sized(s) && AllMapped(s) && s.procs[s.current].state == Runnable && Mapped(s.procs[s.current])
  {
    hide AllAgree, NoLostRendezvous;
  }

  lemma HandsOverFrom(s: Sys, s1: Sys)
    requires Sized(s1) && s1.current == s.current
    ensures HandsOver(s, Switch(s1)) && Switch(s1).procs == s1.procs && Switch(s1).log == s1.log
  {
    hide Scan, FirstAt;
    SwitchLaw(s1);
  }

  lemma SendLaw(s: Sys, target: nat, ptr: nat)
    requires Inv(s) && !s.halted
    ensures Sized(s) && AllMapped(s) && Live(s.procs[s.current])
    ensures Sent(s, Send(s, target, ptr), target, ptr, SendError(s, target, ptr))
  {
    Ready(s);
    var b := s.procs[s.current];
    InsideIs(b, ptr);
    if target < 64 {
      MappedIn(s, target);
      InsideIs(s.procs[target], s.procs[target].ipcBuffer);
      if SendError(s, target, ptr).None? {
        hide Inv;
        if s.procs[target].state == BlockedOnReceive { Rendezvous(s, target, ptr); } else { Queued(s, target, ptr); }
      }
    }
    hide *;
  }

  lemma Rendezvous(s: Sys, target: nat, ptr: nat)
    requires Sized(s) && AllMapped(s) && s.procs[s.current].state == Runnable && Inside(s.procs[s.current], ptr)
    requires target < 64 && target != s.current && s.procs[target].state == BlockedOnReceive
    requires SendError(s, target, ptr).None? && Inside(s.procs[target], s.procs[target].ipcBuffer)
    ensures Sent(s, Send(s, target, ptr), target, ptr, None)
  {
    var p, b, t := s.current, s.procs[s.current], s.procs[target];
    assert Mapped(b) && Mapped(t);
    InsideIs(b, ptr);
    InsideIs(t, t.ipcBuffer);
    WriteIs(b, ptr, t, t.ipcBuffer);
    hide Contains, Switch, HandsOver, Message, WriteMessage, Copied, BytesAt, Inside, AllMapped, Sent;
    var msg := Message(b, ptr);
    var s1 := Update(s, target, Woken(t, p, msg), [SendStart(p, target, msg), Deliver(p, target, msg)]);
    var s2 := Update(s1, p, b.(ipcBuffer := ptr, state := BlockedOnReply(target), pending := InSend), []);
    assert Send(s, target, ptr) == Switch(s2);
    HandsOverFrom(s, s2);
    CopiedLike(b, ptr, t, t.ipcBuffer, WriteMessage(t, t.ipcBuffer, msg), Woken(t, p, msg));
    MetIs(s, Switch(s2), target, ptr, Woken(t, p, msg));
  }

  lemma MetIs(s: Sys, s': Sys, target: nat, ptr: nat, t': Process)
    requires Sized(s) && s.procs[s.current].state == Runnable && Inside(s.procs[s.current], ptr)
    requires target < 64 && target != s.current && s.procs[target].state == BlockedOnReceive && HandsOver(s, s')
    requires var b := s.procs[s.current];
             s'.procs == s.procs[target := t'][s.current :=
               b.(ipcBuffer := ptr, state := BlockedOnReply(target), pending := InSend)] &&
             s'.log == s.log + [SendStart(s.current, target, BytesAt(b, ptr)),
               Deliver(s.current, target, BytesAt(b, ptr))] + []
    requires t' == s.procs[target].(ipcPeer := s.current, state := Runnable, memory := t'.memory)
    requires Copied(s.procs[s.current], ptr, s.procs[target], s.procs[target].ipcBuffer, t')
    ensures Sent(s, s', target, ptr, None)
  {
    hide HandsOver, Copied, BytesAt, Inside;
  }

  lemma CopiedLike(a: Process, ap: nat, b: Process, bp: nat, b1: Process, b2: Process)
    requires Copied(a, ap, b, bp, b1) && b2.memory == b1.memory
    ensures Copied(a, ap, b, bp, b2)
  {
  }

  lemma Queued(s: Sys, target: nat, ptr: nat)
    requires Sized(s) && AllMapped(s) && s.procs[s.current].state == Runnable && Inside(s.procs[s.current], ptr)
    requires target < 64 && target != s.current && s.procs[target].state != BlockedOnReceive && !Dead(s.procs[target])
    requires SendError(s, target, ptr).None?
    ensures Sent(s, Send(s, target, ptr), target, ptr, None)
  {
    hide Switch, HandsOver, Contains;
    var p, b := s.current, s.procs[s.current];
    assert Mapped(b);
    InsideIs(b, ptr);
    hide Message, BytesAt, Inside, AllMapped;
    HandsOverFrom(s, Update(s, p, b.(ipcBuffer := ptr, state := BlockedOnSend(target), pending := InSend),
      [SendStart(p, target, Message(b, ptr))]));
  }

  lemma {:induction false} SenderIs(procs: seq<Process>, q: nat, i: nat)
    requires i <= |procs|
    ensures var r := Sender(procs, q, i);
            if r.Some? then i <= r.value < |procs| && procs[r.value].state == BlockedOnSend(q) &&
              forall x :: i <= x < r.value ==> procs[x].state != BlockedOnSend(q)
            else forall x :: i <= x < |procs| ==> procs[x].state != BlockedOnSend(q)
    decreases |procs| - i
  {
    if i < |procs| && procs[i].state != BlockedOnSend(q) { SenderIs(procs, q, i + 1); }
  }

  lemma ReceiveLaw(s: Sys, ptr: nat)
    requires Inv(s) && !s.halted
    ensures Sized(s) && AllMapped(s) && Live(s.procs[s.current])
    ensures Received(s, Receive(s, ptr), ptr, ReceiveResult(s, ptr))
  {
    Ready(s);
    InsideIs(s.procs[s.current], ptr);
    SenderIs(s.procs, s.current, 0);
    var r := Sender(s.procs, s.current, 0);
    if Inside(s.procs[s.current], ptr) {
      if r.Some? {
        MappedIn(s, r.value);
        hide Inv, Sender;
        Taken(s, ptr, r.value);
      } else {
        hide Inv, Sender;
        Waits(s, ptr);
      }
    }
    hide *;
  }

  lemma Taken(s: Sys, ptr: nat, p: nat)
    requires Sized(s) && AllMapped(s) && s.procs[s.current].state == Runnable && Inside(s.procs[s.current], ptr)
    requires Sender(s.procs, s.current, 0) == Some(p) && FirstSender(s.procs, s.current, p)
    requires Inside(s.procs[p], s.procs[p].ipcBuffer)
    ensures Received(s, Receive(s, ptr), ptr, ReceiveResult(s, ptr))
  {
    hide Contains, Sender;
    var q, b, a := s.current, s.procs[s.current], s.procs[p];
    assert Mapped(b) && Mapped(a);
    InsideIs(b, ptr);
    InsideIs(a, a.ipcBuffer);
    WriteIs(a, a.ipcBuffer, b, ptr);
    hide Message, WriteMessage, Copied, BytesAt, Inside, AllMapped;
    var msg := Message(a, a.ipcBuffer);
    CopiedLike(a, a.ipcBuffer, b, ptr, WriteMessage(b, ptr, msg), WriteMessage(b, ptr, msg).(ipcBuffer := ptr));
  }

  lemma Waits(s: Sys, ptr: nat)
    requires Sized(s) && AllMapped(s) && s.procs[s.current].state == Runnable && Inside(s.procs[s.current], ptr)
    requires Sender(s.procs, s.current, 0) == None
    requires forall x :: 0 <= x < 64 ==> s.procs[x].state != BlockedOnSend(s.current)
    ensures Received(s, Receive(s, ptr), ptr, ReceiveResult(s, ptr))
  {
    hide Switch, HandsOver, Contains, Sender;
    var q, b := s.current, s.procs[s.current];
    InsideIs(b, ptr);
    hide Inside;
    HandsOverFrom(s, Update(s, q, b.(ipcBuffer := ptr, ipcPeer := 0, state := BlockedOnReceive, pending := InReceive),
      [ReceiveStart(q)]));
  }

  lemma ReplyLaw(s: Sys, target: nat, ptr: nat)
    requires Inv(s) && !s.halted
    ensures Sized(s) && AllMapped(s) && Live(s.procs[s.current])
    ensures Answered(s, ReplyTo(s, target, ptr), target, ptr, ReplyResult(s, target, ptr))
  {
    Ready(s);
    InsideIs(s.procs[s.current], ptr);
    if target < 64 {
      MappedIn(s, target);
      InsideIs(s.procs[target], s.procs[target].ipcBuffer);
      hide Inv;
      if ReplyResult(s, target, ptr) == 0 { Replies(s, target, ptr); }
    }
    hide *;
  }

  lemma Replies(s: Sys, target: nat, ptr: nat)
    requires Sized(s) && AllMapped(s) && s.procs[s.current].state == Runnable && Inside(s.procs[s.current], ptr)
    requires target < 64 && s.procs[target].state == BlockedOnReply(s.current)
    requires ReplyResult(s, target, ptr) == 0 && Inside(s.procs[target], s.procs[target].ipcBuffer)
    ensures Answered(s, ReplyTo(s, target, ptr), target, ptr, 0)
  {
    hide Contains;
    var q, b, t := s.current, s.procs[s.current], s.procs[target];
    assert Mapped(b) && Mapped(t);
    InsideIs(b, ptr);
    InsideIs(t, t.ipcBuffer);
    WriteIs(b, ptr, t, t.ipcBuffer);
    hide Message, WriteMessage, Copied, BytesAt, Inside, AllMapped;
    var msg := Message(b, ptr);
    CopiedLike(b, ptr, t, t.ipcBuffer, WriteMessage(t, t.ipcBuffer, msg),
      WriteMessage(t, t.ipcBuffer, msg).(ipcPeer := q, ipcBuffer := 0, state := Runnable));
  }

  lemma ExitLaw(s: Sys)
    requires Sized(s)
    ensures Ended(s, Exit(s))
  {
    hide Switch, HandsOver;
    HandsOverFrom(s, Update(s, s.current, s.procs[s.current].(state := Exited), [Died(s.current)]));
  }

  lemma YieldLaw(s: Sys)
    requires Sized(s)
    ensures Yielded(s, Switch(s))
  {
    hide Switch, HandsOver;
    HandsOverFrom(s, s);
  }

  // ----- Over runs -----

  /** Nothing is taken back from the log. */
  lemma LogStep(s: Sys, step: Step)
    requires Inv(s) && Enabled(s, step)
    ensures s.log <= Do(s, step).log
  {
    hide Scan, Sender, WriteMessage, Agrees, Send, Receive, ReplyTo, FreeSlot, Message;
    match step
    case DoSend(target, ptr) => SendLaw(s, target, ptr);
    case DoReceive(ptr) => ReceiveLaw(s, ptr);
    case DoReply(target, ptr) => ReplyLaw(s, target, ptr);
    case _ =>
  }

  /** A step leaves an exited slot alone, or a process is born in it. */
  lemma ExitedStep(s: Sys, step: Step, p: nat)
    requires Inv(s) && Enabled(s, step) && p < 64 && s.procs[p].state == Exited
    ensures var s' := Do(s, step);
            s.log <= s'.log && (s'.procs[p].state == Exited || Born(p) in s'.log[|s.log|..])
  {
    hide Scan, Sender, WriteMessage, Agrees, Send, Receive, ReplyTo, FreeSlot, Message;
    match step
    case DoSend(target, ptr) => SendLaw(s, target, ptr);
    case DoReceive(ptr) => ReceiveLaw(s, ptr);
    case DoReply(target, ptr) => ReplyLaw(s, target, ptr);
    case _ =>
  }
}
