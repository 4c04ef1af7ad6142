/** What every step of the IPC machine keeps: no lost rendezvous, buffers inside their layers, the
    running process is runnable, and each process's share of the event log follows the protocol. */
module IpcInvariant {
  import opened Words
  import opened Ipc

  // ----- Protocol automata over the event log -----

  /** A process as a sender: what the log says it has done. */
  datatype Phase = Idle | Sending(target: nat, msg: seq<byte>) | Delivered(target': nat) | Replied(target'': nat) | Bad

  /** A process as a receiver. */
  datatype Wait = Resting | Waiting | Got(sender: nat) | Wrong

  function Advance(ph: Phase, ev: Event, p: nat): Phase {
    match ev
    case SendStart(x, t, msg) => if x != p then ph else if ph == Idle then Sending(t, msg) else Bad
    case Deliver(x, q, msg) => if x != p then ph else if ph == Sending(q, msg) then Delivered(q) else Bad
    case Reply(q, x, _) => if x != p then ph else if ph == Delivered(q) then Replied(q) else Bad
    case SendReturn(x) => if x != p then ph else if ph.Replied? then Idle else Bad
    case Born(x) => if x == p && ph != Bad then Idle else ph
    case Died(x) => if x == p && ph != Bad then Idle else ph
    case _ => ph
  }

  function Await(w: Wait, ev: Event, q: nat): Wait {
    match ev
    case ReceiveStart(x) => if x != q then w else if w == Resting then Waiting else Wrong
    case Deliver(p, x, _) => if x != q then w else if w == Waiting then Got(p) else Wrong
    case ReceiveReturn(x, p) => if x != q then w else if w == Got(p) then Resting else Wrong
    case Born(x) => if x == q && w != Wrong then Resting else w
    case Died(x) => if x == q && w != Wrong then Resting else w
    case _ => w
  }

  function PhaseOf(log: seq<Event>, p: nat): Phase {
    if log == [] then Idle else Advance(PhaseOf(log[..|log| - 1], p), log[|log| - 1], p)
  }

  function WaitOf(log: seq<Event>, q: nat): Wait {
    if log == [] then Resting else Await(WaitOf(log[..|log| - 1], q), log[|log| - 1], q)
  }

  lemma Snoc(log: seq<Event>, ev: Event, p: nat)
    ensures PhaseOf(log + [ev], p) == Advance(PhaseOf(log, p), ev, p)
    ensures WaitOf(log + [ev], p) == Await(WaitOf(log, p), ev, p)
  {
    assert (log + [ev])[..|log + [ev]| - 1] == log;
  }

  lemma Snoc0(log: seq<Event>)
    ensures log + [] == log
  {
  }

  lemma Snoc2(log: seq<Event>, e0: Event, e1: Event, p: nat)
    ensures PhaseOf(log + [e0, e1], p) == Advance(Advance(PhaseOf(log, p), e0, p), e1, p)
    ensures WaitOf(log + [e0, e1], p) == Await(Await(WaitOf(log, p), e0, p), e1, p)
  {
    Snoc(log, e0, p);
    Snoc(log + [e0], e1, p);
    assert log + [e0, e1] == log + [e0] + [e1];
  }

  // ----- The invariant -----

  /** The control block of `p` agrees with its history. */
  ghost predicate Agrees(b: Process, log: seq<Event>, p: nat) {
    match b.state
    case Empty => PhaseOf(log, p) == Idle && WaitOf(log, p) == Resting
    case Exited => PhaseOf(log, p) == Idle && WaitOf(log, p) == Resting
    case BlockedOnSend(t) =>
      && t < MAX_PROCESSES && t != p && b.pending == InSend && Contains(b, b.ipcBuffer, MSG)
      && WaitOf(log, p) == Resting
      && Mapped(b) && PhaseOf(log, p) == Sending(t, Message(b, b.ipcBuffer))
    case BlockedOnReply(t) =>
      && t < MAX_PROCESSES && t != p && b.pending == InSend && Contains(b, b.ipcBuffer, MSG)
      && WaitOf(log, p) == Resting
      && PhaseOf(log, p) == Delivered(t)
    case BlockedOnReceive =>
      && b.pending == InReceive && Contains(b, b.ipcBuffer, MSG)
      && PhaseOf(log, p) == Idle && WaitOf(log, p) == Waiting
    case Runnable =>
      match b.pending
      case NoCall => PhaseOf(log, p) == Idle && WaitOf(log, p) == Resting
      case InSend => PhaseOf(log, p).Replied? && WaitOf(log, p) == Resting
      case InReceive => PhaseOf(log, p) == Idle && WaitOf(log, p) == Got(b.ipcPeer)
  }

  /** Nobody waits for a message while another process waits to send one to it. */
  ghost predicate NoLostRendezvous(procs: seq<Process>) {
    forall p, q :: 0 <= p < |procs| && 0 <= q < |procs| && procs[q].state == BlockedOnReceive ==>
      procs[p].state != BlockedOnSend(q)
  }

  ghost predicate Inv(s: Sys) {
    && Sized(s) && AllMapped(s)
    && AllAgree(s)
    && NoLostRendezvous(s.procs)
    && (!s.halted ==> s.procs[s.current].state == Runnable)
  }

  lemma InitialInv(s: Sys)
    requires Initial(s)
    ensures Inv(s)
  {
  }

  /** An event that is not about `p` leaves its history alone. */
  predicate About(ev: Event, p: nat) {
    match ev
    case SendStart(x, _, _) => x == p
    case Deliver(x, q, _) => x == p || q == p
    case Reply(_, x, _) => x == p
    case SendReturn(x) => x == p
    case ReceiveStart(x) => x == p
    case ReceiveReturn(x, _) => x == p
    case Born(x) => x == p
    case Died(x) => x == p
  }

  lemma {:induction false} OthersAgree(b: Process, log: seq<Event>, events: seq<Event>, p: nat)
    requires forall i :: 0 <= i < |events| ==> !About(events[i], p)
    ensures PhaseOf(log + events, p) == PhaseOf(log, p) && WaitOf(log + events, p) == WaitOf(log, p)
    ensures Agrees(b, log, p) ==> Agrees(b, log + events, p)
    decreases |events|
  {
    if events == [] {
      Snoc0(log);
    } else {
      Snoc(log, events[0], p);
      OthersAgree(b, log + [events[0]], events[1..], p);
      assert log + events == log + [events[0]] + events[1..];
    }
  }

  ghost predicate AllAgree(s: Sys)
    requires Sized(s)
  {
    forall p :: 0 <= p < MAX_PROCESSES ==> Agrees(s.procs[p], s.log, p)
  }

  /** A step that changes at most the processes `p` and `q`, with events about no other. */
  lemma ChangeInv(s: Sys, s': Sys, events: seq<Event>, p: nat, q: nat)
    requires Sized(s) && AllMapped(s) && AllAgree(s) && Sized(s') && p < MAX_PROCESSES && q < MAX_PROCESSES
    requires s'.log == s.log + events
    requires forall x :: 0 <= x < MAX_PROCESSES && x != p && x != q ==> s'.procs[x] == s.procs[x]
    requires forall x, i :: 0 <= i < |events| && About(events[i], x) ==> x == p || x == q
    requires Agrees(s'.procs[p], s'.log, p) && (Live(s'.procs[p]) ==> Mapped(s'.procs[p]))
    requires Agrees(s'.procs[q], s'.log, q) && (Live(s'.procs[q]) ==> Mapped(s'.procs[q]))
    ensures AllMapped(s') && AllAgree(s')
  {
    hide Agrees, About;
    forall x | 0 <= x < MAX_PROCESSES ensures Agrees(s'.procs[x], s'.log, x) {
      if x != p && x != q { OthersAgree(s.procs[x], s.log, events, x); }
    }
  }

  lemma SwitchInv(s: Sys)
    requires Sized(s) && AllMapped(s) && NoLostRendezvous(s.procs)
    requires AllAgree(s)
    ensures Inv(Switch(s))
  {
    hide Agrees, Scan;
  }

  // ----- Steps keep the invariant -----

  /** No rendezvous is lost when a process stops waiting or stops being a sender. */
  lemma RendezvousKept(procs: seq<Process>, procs': seq<Process>, p: nat)
    requires NoLostRendezvous(procs) && |procs| == |procs'| && p < |procs|
    requires forall x :: 0 <= x < |procs| && x != p ==> procs'[x] == procs[x]
    requires procs'[p].state == procs[p].state ||
      (procs'[p].state != BlockedOnReceive && !procs'[p].state.BlockedOnSend?)
    ensures NoLostRendezvous(procs')
  {
  }

  lemma SendInv(s: Sys, target: nat, ptr: nat)
    requires Inv(s) && !s.halted && s.procs[s.current].pending == NoCall
    ensures Inv(Send(s, target, ptr))
  {
    hide Scan, WriteMessage;
    if SendError(s, target, ptr).None? {
      var p := s.current;
      assert Agrees(s.procs[p], s.log, p) && Agrees(s.procs[target], s.log, target);
      if s.procs[target].state == BlockedOnReceive {
        SendDirectInv(s, target, ptr);
      } else {
        SendWaitInv(s, target, ptr);
      }
    }
  }

  lemma SendWaitInv(s: Sys, target: nat, ptr: nat)
    requires Inv(s) && !s.halted && s.procs[s.current].pending == NoCall
    requires SendError(s, target, ptr).None? && s.procs[target].state != BlockedOnReceive
    ensures Inv(Send(s, target, ptr))
  {
    hide Scan, WriteMessage;
    var p := s.current;
    var b := s.procs[p];
    var msg := Message(b, ptr);
    var s' := Update(s, p, b.(ipcBuffer := ptr, state := BlockedOnSend(target), pending := InSend),
      [SendStart(p, target, msg)]);
    assert Agrees(b, s.log, p);
    Snoc(s.log, SendStart(p, target, msg), p);
    ChangeInv(s, s', [SendStart(p, target, msg)], p, p);
    assert NoLostRendezvous(s'.procs);
    SwitchInv(s');
  }

  lemma SendDirectInv(s: Sys, target: nat, ptr: nat)
    requires Inv(s) && !s.halted && s.procs[s.current].pending == NoCall
    requires SendError(s, target, ptr).None? && s.procs[target].state == BlockedOnReceive
    ensures Inv(Send(s, target, ptr))
  {
    hide Scan, WriteMessage;
    var p := s.current;
    var b, c := s.procs[p], s.procs[target];
    var msg := Message(b, ptr);
    var events := [SendStart(p, target, msg), Deliver(p, target, msg)];
    var s1 := Update(s, target, Woken(c, p, msg), events);
    var s' := Update(s1, p, b.(ipcBuffer := ptr, state := BlockedOnReply(target), pending := InSend), []);
    assert Agrees(b, s.log, p) && Agrees(c, s.log, target);
    Snoc0(s1.log);
    Snoc2(s.log, events[0], events[1], p);
    Snoc2(s.log, events[0], events[1], target);
    ChangeInv(s, s', events, p, target);
    RendezvousKept(s.procs, s1.procs, target);
    RendezvousKept(s1.procs, s'.procs, p);
    SwitchInv(s');
  }

  lemma ReceiveInv(s: Sys, ptr: nat)
    requires Inv(s) && !s.halted && s.procs[s.current].pending == NoCall
    ensures Inv(Receive(s, ptr))
  {
    hide Scan, WriteMessage, Message;
    var q := s.current;
    if Contains(s.procs[q], ptr, MSG) {
      assert Agrees(s.procs[q], s.log, q);
      match Sender(s.procs, q, 0)
      case None => ReceiveWaitInv(s, ptr);
      case Some(p) => ReceiveNowInv(s, ptr, p);
    }
  }

  lemma ReceiveWaitInv(s: Sys, ptr: nat)
    requires Inv(s) && !s.halted && s.procs[s.current].pending == NoCall
    requires Contains(s.procs[s.current], ptr, MSG) && Sender(s.procs, s.current, 0).None?
    ensures Inv(Receive(s, ptr))
  {
    hide Scan, Sender, PhaseOf, WaitOf, Message;
    var q := s.current;
    var b := s.procs[q];
    assert Agrees(b, s.log, q);
    var s' := Update(s, q, b.(ipcBuffer := ptr, ipcPeer := 0, state := BlockedOnReceive, pending := InReceive),
      [ReceiveStart(q)]);
    Snoc(s.log, ReceiveStart(q), q);
    ChangeInv(s, s', [ReceiveStart(q)], q, q);
    assert NoLostRendezvous(s'.procs);
    SwitchInv(s');
  }

  lemma ReceiveNowInv(s: Sys, ptr: nat, p: nat)
    requires Inv(s) && !s.halted && s.procs[s.current].pending == NoCall
    requires Contains(s.procs[s.current], ptr, MSG) && Sender(s.procs, s.current, 0) == Some(p)
    ensures Inv(Receive(s, ptr))
  {
    hide WriteMessage, Sender;
    var q := s.current;
    var a, b := s.procs[p], s.procs[q];
    assert Agrees(a, s.log, p) && Agrees(b, s.log, q);
    var msg := Message(a, a.ipcBuffer);
    var s' := Receive(s, ptr);
    var events := [ReceiveStart(q), Deliver(p, q, msg), ReceiveReturn(q, p)];
    assert s'.log == s.log + events;
    Snoc3(s.log, events[0], events[1], events[2], p);
    Snoc3(s.log, events[0], events[1], events[2], q);
    ChangeInv(s, s', events, p, q);
    RendezvousKept(s.procs, s.procs[q := s'.procs[q]], q);
    RendezvousKept(s.procs[q := s'.procs[q]], s'.procs, p);
  }

  lemma Snoc3(log: seq<Event>, e0: Event, e1: Event, e2: Event, p: nat)
    ensures PhaseOf(log + [e0, e1, e2], p) == Advance(Advance(Advance(PhaseOf(log, p), e0, p), e1, p), e2, p)
    ensures WaitOf(log + [e0, e1, e2], p) == Await(Await(Await(WaitOf(log, p), e0, p), e1, p), e2, p)
  {
    Snoc2(log, e0, e1, p);
    Snoc(log + [e0, e1], e2, p);
    assert log + [e0, e1, e2] == log + [e0, e1] + [e2];
  }

  lemma ReplyInv(s: Sys, target: nat, ptr: nat)
    requires Inv(s) && !s.halted && s.procs[s.current].pending == NoCall
    ensures Inv(ReplyTo(s, target, ptr))
  {
    hide WriteMessage;
    if ReplyResult(s, target, ptr) == 0 {
      var q := s.current;
      var s' := ReplyTo(s, target, ptr);
      var msg := Message(s.procs[q], ptr);
      assert Agrees(s.procs[target], s.log, target);
      Snoc(s.log, Reply(q, target, msg), target);
      ChangeInv(s, s', [Reply(q, target, msg)], target, target);
      RendezvousKept(s.procs, s'.procs, target);
    }
  }

  lemma DeathInv(s: Sys, p: nat)
    requires Inv(s) && p < MAX_PROCESSES
    ensures var s' := Update(s, p, s.procs[p].(state := Exited), [Died(p)]);
            Sized(s') && AllMapped(s') && AllAgree(s') && NoLostRendezvous(s'.procs)
  {
    var s' := Update(s, p, s.procs[p].(state := Exited), [Died(p)]);
    assert Agrees(s.procs[p], s.log, p);
    Snoc(s.log, Died(p), p);
    ChangeInv(s, s', [Died(p)], p, p);
    RendezvousKept(s.procs, s'.procs, p);
  }

  lemma CreateInv(s: Sys, base: nat, memory: seq<byte>)
    requires Inv(s) && base + |memory| < W64
    ensures Inv(Create(s, base, memory))
  {
    hide FreeSlot;
    match FreeSlot(s.procs, 1)
    case None =>
    case Some(i) =>
      var s' := Create(s, base, memory);
      assert Agrees(s.procs[i], s.log, i);
      Snoc(s.log, Born(i), i);
      ChangeInv(s, s', [Born(i)], i, i);
      RendezvousKept(s.procs, s'.procs, i);
  }

  lemma CreateFailedInv(s: Sys, base: nat, memory: seq<byte>)
    requires Inv(s) && !s.halted && base + |memory| < W64
    ensures Inv(Do(s, DoCreateFailed(base, memory)))
  {
    hide FreeSlot, Create;
    match FreeSlot(s.procs, 1)
    case None =>
    case Some(i) =>
      CreateInv(s, base, memory);
      CreatedIs(s, base, memory, i);
      DeathInv(Create(s, base, memory), i);
  }

  lemma CreatedIs(s: Sys, base: nat, memory: seq<byte>, i: nat)
    requires Sized(s) && FreeSlot(s.procs, 1) == Some(i)
    ensures Create(s, base, memory) == Update(s, i, Fresh(base, memory), [Born(i)])
  {
  }

  lemma ReturnInv(s: Sys)
    requires Inv(s) && !s.halted
    ensures Inv(Return(s))
  {
    var p := s.current;
    var b := s.procs[p];
    var s' := Return(s);
    assert Agrees(b, s.log, p);
    if b.pending != NoCall {
      var ev := if b.pending == InSend then SendReturn(p) else ReceiveReturn(p, b.ipcPeer);
      Snoc(s.log, ev, p);
      ChangeInv(s, s', [ev], p, p);
      RendezvousKept(s.procs, s'.procs, p);
    }
  }

  lemma WriteInv(s: Sys, memory: seq<byte>)
    requires Inv(s) && !s.halted && s.procs[s.current].pending == NoCall && |memory| == |s.procs[s.current].memory|
    ensures Inv(Do(s, DoWrite(memory)))
  {
    var p := s.current;
    var s' := Do(s, DoWrite(memory));
    assert Agrees(s.procs[p], s.log, p);
    Snoc0(s.log);
    ChangeInv(s, s', [], p, p);
    RendezvousKept(s.procs, s'.procs, p);
  }

  /** Every step keeps the invariant. */
  lemma StepInv(s: Sys, step: Step)
    requires Inv(s) && Enabled(s, step)
    ensures Inv(Do(s, step))
  {
    hide Agrees, Send, Receive, ReplyTo, Scan, FreeSlot, Create, Return, NoLostRendezvous;
    match step
    case DoSend(target, ptr) => SendInv(s, target, ptr);
    case DoReceive(ptr) => ReceiveInv(s, ptr);
    case DoReply(target, ptr) => ReplyInv(s, target, ptr);
    case DoYield => SwitchInv(s);
    case DoPreempt => SwitchInv(s);
    case DoRunSlot(slot) =>
    case DoExit =>
      DeathInv(s, s.current);
      SwitchInv(Update(s, s.current, s.procs[s.current].(state := Exited), [Died(s.current)]));
    case DoKill(pid) => if pid < MAX_PROCESSES { DeathInv(s, pid); }
    case DoCreate(base, memory) => CreateInv(s, base, memory);
    case DoCreateFailed(base, memory) => CreateFailedInv(s, base, memory);
    case DoReturn => ReturnInv(s);
    case DoWrite(memory) => WriteInv(s, memory);
  }
}
