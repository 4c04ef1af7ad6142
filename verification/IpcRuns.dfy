/** Properties of whole runs of the IPC machine. */
module IpcRuns {
  import opened Words
  import opened Ipc
  import opened IpcInvariant
  import IpcLaws

  /** The steps can be taken one after the other from `s`, and lead to `s'`. */
  ghost predicate Reaches(s: Sys, steps: seq<Step>, s': Sys)
    decreases |steps|
  {
    if steps == [] then s' == s
    else
      && Sized(s) && AllMapped(s) && Live(s.procs[s.current]) && Enabled(s, steps[0])
      && Reaches(Do(s, steps[0]), steps[1..], s')
  }

  /** Every reachable state satisfies the invariant. */
  lemma {:induction false} ReachableInv(s: Sys, steps: seq<Step>, s': Sys)
    requires Inv(s) && Reaches(s, steps, s')
    ensures Inv(s')
    decreases |steps|
  {
    hide Do, Inv;
    if steps != [] {
      InvReady(s);
      StepInv(s, steps[0]);
      ReachableInv(Do(s, steps[0]), steps[1..], s');
    }
  }

  /** The preconditions of the step function are part of the invariant, so no step is excluded by them. */
  lemma InvReady(s: Sys)
    requires Inv(s)
    ensures Sized(s) && AllMapped(s) && (!s.halted ==> Live(s.procs[s.current]))
  {
  }

  /** In every reachable state: whenever user code can run, the running process is runnable; no
      rendezvous is lost; every blocked process's buffer lies in its own layer. */
  lemma SafeRuns(s: Sys, steps: seq<Step>, s': Sys)
    requires Initial(s) && Reaches(s, steps, s')
    ensures Sized(s') && (!s'.halted ==> s'.procs[s'.current].state == Runnable)
    ensures NoLostRendezvous(s'.procs)
    ensures forall p :: 0 <= p < MAX_PROCESSES && Live(s'.procs[p]) && s'.procs[p].state != Runnable ==>
              Contains(s'.procs[p], s'.procs[p].ipcBuffer, MSG)
  {
    InitialInv(s);
    ReachableInv(s, steps, s');
    forall p | 0 <= p < MAX_PROCESSES && Live(s'.procs[p]) && s'.procs[p].state != Runnable
      ensures Contains(s'.procs[p], s'.procs[p].ipcBuffer, MSG)
    {
      assert Agrees(s'.procs[p], s'.log, p);
    }
  }

  /** The kernel's second look at a stored buffer never fails. */
  lemma SecondLooksSucceed(s: Sys, target: nat)
    requires Inv(s) && target < MAX_PROCESSES
    ensures s.procs[target].state == BlockedOnReceive ==> Contains(s.procs[target], s.procs[target].ipcBuffer, MSG)
    ensures Sender(s.procs, s.current, 0).Some? ==>
              var p := Sender(s.procs, s.current, 0).value; Contains(s.procs[p], s.procs[p].ipcBuffer, MSG)
    ensures s.procs[target].state == BlockedOnReply(s.current) ==>
      Contains(s.procs[target], s.procs[target].ipcBuffer, MSG)
  {
    hide Sender;
    assert Agrees(s.procs[target], s.log, target);
    if Sender(s.procs, s.current, 0).Some? {
      var p := Sender(s.procs, s.current, 0).value;
      assert Agrees(s.procs[p], s.log, p);
    }
  }

  // ----- A send that returns has been received and answered, exactly once -----

  /** Events in which `p` takes part as a sender. */
  predicate Concerns(ev: Event, p: nat) {
    match ev
    case SendStart(x, _, _) => x == p
    case Deliver(x, _, _) => x == p
    case Reply(_, x, _) => x == p
    case SendReturn(x) => x == p
    case Born(x) => x == p
    case Died(x) => x == p
    case _ => false
  }

  /** None of the events from `lo` to `hi` concerns `p`. */
  ghost predicate Quiet(log: seq<Event>, lo: nat, hi: nat, p: nat) {
    hi <= |log| && forall x :: lo <= x < hi ==> !Concerns(log[x], p)
  }

  ghost predicate Started(log: seq<Event>, i: nat, p: nat, t: nat, msg: seq<byte>) {
    i < |log| && log[i] == SendStart(p, t, msg)
  }

  /** `p`'s message `msg` for `t` was sent at `i` and delivered at `j`, with nothing else in between. */
  ghost predicate WasDelivered(log: seq<Event>, i: nat, j: nat, p: nat, t: nat, msg: seq<byte>) {
    Started(log, i, p, t, msg) && i < j < |log| && log[j] == Deliver(p, t, msg) && Quiet(log, i + 1, j, p)
  }

  /** ... and answered from the same slot at `k`. */
  ghost predicate WasAnswered(log: seq<Event>, i: nat, j: nat, k: nat, p: nat, t: nat, msg: seq<byte>) {
    && WasDelivered(log, i, j, p, t, msg) && j < k < |log|
    && log[k].Reply? && log[k].q == t && log[k].p == p && Quiet(log, j + 1, k, p)
  }

  lemma PhaseEmpty(p: nat)
    ensures PhaseOf([], p) == Idle
  {
  }

  lemma PhaseStep(log: seq<Event>, p: nat)
    requires log != []
    ensures PhaseOf(log, p) == Advance(PhaseOf(log[..|log| - 1], p), log[|log| - 1], p)
  {
  }

  lemma {:induction false} History(log: seq<Event>, p: nat) returns (i: nat, j: nat, k: nat, t: nat, msg: seq<byte>)
    requires PhaseOf(log, p) != Bad
    ensures PhaseOf(log, p).Sending? ==>
              PhaseOf(log, p) == Sending(t, msg) && Started(log, i, p, t, msg) && Quiet(log, i + 1, |log|, p)
    ensures PhaseOf(log, p).Delivered? ==>
              PhaseOf(log, p) == Delivered(t) && WasDelivered(log, i, j, p, t, msg) && Quiet(log, j + 1, |log|, p)
    ensures PhaseOf(log, p).Replied? ==>
              PhaseOf(log, p) == Replied(t) && WasAnswered(log, i, j, k, p, t, msg) && Quiet(log, k + 1, |log|, p)
    decreases |log|
  {
    i, j, k, t, msg := 0, 0, 0, 0, [];
    if log == [] {
      PhaseEmpty(p);
    } else {
      PhaseStep(log, p);
      hide PhaseOf;
      var n := |log| - 1;
      var ev := log[n];
      i, j, k, t, msg := History(log[..n], p);
      if Concerns(ev, p) {
        match ev
        case SendStart(_, t', msg') => i, t, msg := n, t', msg';
        case Deliver(_, _, _) => j := n;
        case Reply(_, _, _) => k := n;
        case _ =>
      }
    }
  }

  lemma {:induction false} BadStays(log: seq<Event>, n: nat, p: nat)
    requires n <= |log| && PhaseOf(log[..n], p) == Bad
    ensures PhaseOf(log, p) == Bad
    decreases |log| - n
  {
    hide WaitOf, PhaseOf, Await;
    if n == |log| {
      assert log[..n] == log;
    } else {
      Snoc(log[..n], log[n], p);
      assert log[..n] + [log[n]] == log[..n + 1];
      BadStays(log, n + 1, p);
    }
  }

  /** Over every run: a send of process `p` returns only after its 64 bytes were copied exactly once
      to the target, and exactly one reply from that target was copied back afterwards. */
  lemma SendReturnsAnswered(s: Sys, steps: seq<Step>, s': Sys, p: nat, r: nat)
    returns (i: nat, j: nat, k: nat, t: nat, msg: seq<byte>)
    requires Initial(s) && Reaches(s, steps, s') && p < MAX_PROCESSES
    requires r < |s'.log| && s'.log[r] == SendReturn(p)
    ensures WasAnswered(s'.log, i, j, k, p, t, msg) && k < r && Quiet(s'.log, k + 1, r, p)
  {
    hide Inv, PhaseOf, WaitOf, Reaches;
    InitialInv(s);
    ReachableInv(s, steps, s');
    NeverBad(s', p);
    var log := s'.log;
    if PhaseOf(log[..r + 1], p) == Bad { BadStays(log, r + 1, p); }
    Snoc(log[..r], log[r], p);
    assert log[..r] + [log[r]] == log[..r + 1];
    i, j, k, t, msg := History(log[..r], p);
  }

  lemma NeverBad(s: Sys, p: nat)
    requires Inv(s) && p < MAX_PROCESSES
    ensures PhaseOf(s.log, p) != Bad && WaitOf(s.log, p) != Wrong
  {
    assert Agrees(s.procs[p], s.log, p);
  }

  /** A receive returns the process whose message was delivered since it was called. */
  lemma ReceiveReturnsSender(s: Sys, steps: seq<Step>, s': Sys, q: nat, r: nat) returns (j: nat)
    requires Initial(s) && Reaches(s, steps, s') && q < MAX_PROCESSES
    requires r < |s'.log| && s'.log[r].ReceiveReturn? && s'.log[r].q == q
    ensures j < r && s'.log[j].Deliver? && s'.log[j].p == s'.log[r].from' && s'.log[j].q == q
    ensures forall x :: j < x < r ==> !(s'.log[x].Deliver? && s'.log[x].q == q)
  {
    hide Inv, PhaseOf, WaitOf, Reaches;
    InitialInv(s);
    ReachableInv(s, steps, s');
    NeverBad(s', q);
    var log := s'.log;
    if WaitOf(log[..r + 1], q) == Wrong { WrongStays(log, r + 1, q); }
    Snoc(log[..r], log[r], q);
    assert log[..r] + [log[r]] == log[..r + 1];
    j := LastDelivery(log[..r], q);
  }

  lemma {:induction false} WrongStays(log: seq<Event>, n: nat, q: nat)
    requires n <= |log| && WaitOf(log[..n], q) == Wrong
    ensures WaitOf(log, q) == Wrong
    decreases |log| - n
  {
    hide WaitOf, PhaseOf, Advance;
    if n == |log| {
      assert log[..n] == log;
    } else {
      Snoc(log[..n], log[n], q);
      assert log[..n] + [log[n]] == log[..n + 1];
      WrongStays(log, n + 1, q);
    }
  }

  lemma {:induction false} LastDelivery(log: seq<Event>, q: nat) returns (j: nat)
    requires WaitOf(log, q).Got?
    ensures j < |log| && log[j].Deliver? && log[j].q == q && WaitOf(log, q) == Got(log[j].p)
    ensures forall x :: j < x < |log| ==> !(log[x].Deliver? && log[x].q == q)
    decreases |log|
  {
    var n := |log| - 1;
    if log[n].Deliver? && log[n].q == q {
      j := n;
    } else {
      j := LastDelivery(log[..n], q);
    }
  }

  // ----- Nothing but the reply wakes a sender that waits for one -----

  /** One step leaves a process that waits for a reply as it is, or kills it, or is that reply,
      whose 64 bytes then are in the process's buffer. */
  lemma OnlyTheReplyWakes(s: Sys, step: Step, p: nat, q: nat)
    requires Inv(s) && Enabled(s, step) && p < MAX_PROCESSES && s.procs[p].state == BlockedOnReply(q)
    ensures var s' := Do(s, step);
            || s'.procs[p] == s.procs[p]
            || (step == DoKill(p) && s'.procs[p] == s.procs[p].(state := Exited))
            || (step.DoReply? && step.target == p && s.current == q && s'.procs[p].state == Runnable &&
                 ReplyResult(s, p, step.ptr) == 0 &&
                Message(s'.procs[p], s.procs[p].ipcBuffer) == Message(s.procs[q], step.ptr))
  {
    hide Scan, FreeSlot, Sender, WriteMessage, Agrees, Send, Receive, ReplyTo;
    assert p != s.current;
    match step
    case DoSend(target, ptr) => SendKeeps(s, target, ptr, p);
    case DoReceive(ptr) => ReceiveKeeps(s, ptr, p);
    case DoReply(target, ptr) => ReplyKeeps(s, target, ptr, p, q);
    case _ =>
  }

  lemma SendKeeps(s: Sys, target: nat, ptr: nat, p: nat)
    requires Inv(s) && !s.halted && p < MAX_PROCESSES && s.procs[p].state.BlockedOnReply? && p != s.current
    ensures Send(s, target, ptr).procs[p] == s.procs[p]
  {
    hide Scan, WriteMessage, Agrees, Message;
  }

  lemma ReplyKeeps(s: Sys, target: nat, ptr: nat, p: nat, q: nat)
    requires Inv(s) && !s.halted && p < MAX_PROCESSES && s.procs[p].state == BlockedOnReply(q) && p != s.current
    ensures ReplyTo(s, target, ptr).procs[p] == s.procs[p] ||
            (target == p && s.current == q && ReplyTo(s, target, ptr).procs[p].state == Runnable &&
              ReplyResult(s, p, ptr) == 0 &&
             Message(ReplyTo(s, target, ptr).procs[p], s.procs[p].ipcBuffer) == Message(s.procs[q], ptr))
  {
    hide WriteMessage, Agrees;
  }

  lemma ReceiveKeeps(s: Sys, ptr: nat, p: nat)
    requires Inv(s) && !s.halted && p < MAX_PROCESSES && s.procs[p].state.BlockedOnReply? && p != s.current
    ensures Receive(s, ptr).procs[p] == s.procs[p]
  {
    hide Scan, WriteMessage, Agrees;
  }

  // ----- A process that has ended stays ended -----

  /** Over every run: an exited slot keeps that state, and is not given the CPU, until a process is born
      in it. */
  lemma {:induction false} ExitedStays(s: Sys, steps: seq<Step>, s': Sys, p: nat)
    requires Inv(s) && Reaches(s, steps, s') && p < MAX_PROCESSES && s.procs[p].state == Exited
    ensures s.log <= s'.log && Sized(s')
    ensures Born(p) in s'.log[|s.log|..] || (s'.procs[p].state == Exited && (s'.current == p ==> s'.halted))
    decreases |steps|
  {
    hide Do, Inv;
    InvReady(s);
    if steps == [] {
      if !s.halted { RunningIs(s); }
    } else {
      var s1 := Do(s, steps[0]);
      StepInv(s, steps[0]);
      InvReady(s1);
      IpcLaws.ExitedStep(s, steps[0], p);
      if s1.procs[p].state == Exited {
        ExitedStays(s1, steps[1..], s', p);
        assert s'.log[|s1.log|..] == s'.log[|s.log|..][|s1.log| - |s.log|..];
      } else {
        LogGrows(s1, steps[1..], s');
        assert s1.log[|s.log|..] == s'.log[|s.log|..|s1.log|];
        assert s'.log[|s.log|..] == s'.log[|s.log|..|s1.log|] + s'.log[|s1.log|..];
        ReachableInv(s1, steps[1..], s');
        InvReady(s');
      }
    }
  }

  lemma RunningIs(s: Sys)
    requires Inv(s) && !s.halted
    ensures s.procs[s.current].state == Runnable
  {
  }

  lemma {:induction false} LogGrows(s: Sys, steps: seq<Step>, s': Sys)
    requires Inv(s) && Reaches(s, steps, s')
    ensures s.log <= s'.log
    decreases |steps|
  {
    hide Do, Inv;
    if steps != [] {
      InvReady(s);
      StepInv(s, steps[0]);
      IpcLaws.LogStep(s, steps[0]);
      LogGrows(Do(s, steps[0]), steps[1..], s');
    }
  }

  // ----- The log tells what was copied -----

  /** Events that a step adds to the log are about real copies: a send starts with the bytes at the
      caller's pointer, and a delivery or reply leaves its bytes in the receiver's buffer. */
  lemma EventsAreCopies(s: Sys, step: Step, i: nat)
    requires Inv(s) && Enabled(s, step) && |s.log| <= i < |Do(s, step).log|
    ensures s.log <= Do(s, step).log && Inv(Do(s, step))
    ensures var s' := Do(s, step);
            match s'.log[i]
            case SendStart(p, t, msg) =>
              step.DoSend? && p == s.current && t == step.target && Contains(s.procs[p], step.ptr, MSG) &&
                msg == Message(s.procs[p], step.ptr)
            case Deliver(p, q, msg) =>
              q < MAX_PROCESSES && Live(s'.procs[q]) && Contains(s'.procs[q], s'.procs[q].ipcBuffer, MSG) &&
              Message(s'.procs[q], s'.procs[q].ipcBuffer) == msg
            case Reply(q, p, msg) =>
              step.DoReply? && q == s.current && p == step.target && p < MAX_PROCESSES &&
                Contains(s.procs[q], step.ptr, MSG) &&
              Live(s.procs[p]) && Contains(s.procs[p], s.procs[p].ipcBuffer, MSG) &&
              msg == Message(s.procs[q], step.ptr) && Message(s'.procs[p], s.procs[p].ipcBuffer) == msg
            case _ => true
  {
    hide Scan, FreeSlot, WriteMessage, Agrees, Message, NoLostRendezvous, Send, Receive, ReplyTo, Sender;
    StepInv(s, step);
    match step
    case DoSend(target, ptr) => SendEvents(s, target, ptr, i);
    case DoReceive(ptr) => ReceiveEvents(s, ptr, i);
    case DoReply(target, ptr) => ReplyEvents(s, target, ptr, i);
    case _ =>
  }

  lemma SendEvents(s: Sys, target: nat, ptr: nat, i: nat)
    requires Inv(s) && !s.halted && |s.log| <= i < |Send(s, target, ptr).log|
    ensures var s' := Send(s, target, ptr);
            && s.log <= s'.log && SendError(s, target, ptr).None?
            && var msg := Message(s.procs[s.current], ptr);
            && (s'.log[i] == SendStart(s.current, target, msg) || s'.log[i] == Deliver(s.current, target, msg))
            && (s'.log[i].Deliver? ==>
                  && Mapped(s'.procs[target]) && s'.procs[target].state == Runnable
                  && Contains(s'.procs[target], s'.procs[target].ipcBuffer, MSG)
                  && Message(s'.procs[target], s'.procs[target].ipcBuffer) == msg)
  {
    hide Scan, WriteMessage, Agrees, NoLostRendezvous;
  }

  lemma ReceiveEvents(s: Sys, ptr: nat, i: nat)
    requires Inv(s) && !s.halted && |s.log| <= i < |Receive(s, ptr).log|
    ensures var s' := Receive(s, ptr);
            && s.log <= s'.log
            && match s'.log[i]
               case SendStart(_, _, _) => false
               case Reply(_, _, _) => false
               case Deliver(p, q, msg) =>
                 && q == s.current && Mapped(s'.procs[q]) && Live(s'.procs[q])
                 && Contains(s'.procs[q], s'.procs[q].ipcBuffer, MSG)
                 && Message(s'.procs[q], s'.procs[q].ipcBuffer) == msg
               case _ => true
  {
    hide Scan, WriteMessage, Agrees, NoLostRendezvous;
    assert s.procs[s.current].state == Runnable;
  }

  lemma ReplyEvents(s: Sys, target: nat, ptr: nat, i: nat)
    requires Inv(s) && !s.halted && |s.log| <= i < |ReplyTo(s, target, ptr).log|
    ensures var s' := ReplyTo(s, target, ptr);
            && s.log <= s'.log && ReplyResult(s, target, ptr) == 0
            && var msg := Message(s.procs[s.current], ptr);
            && s'.log[i] == Reply(s.current, target, msg)
            && Mapped(s'.procs[target]) && Message(s'.procs[target], s.procs[target].ipcBuffer) == msg
  {
    hide WriteMessage, Agrees, NoLostRendezvous;
  }

  // ----- Bounded waiting -----

  /** How many slots after `current` the process `p` comes up: 1 to MAX_PROCESSES. */
  function Distance(current: nat, p: nat): (d: nat)
    requires current < MAX_PROCESSES && p < MAX_PROCESSES
    ensures 1 <= d <= MAX_PROCESSES && (d == MAX_PROCESSES <==> p == current)
  {
    if p > current then p - current else p + MAX_PROCESSES - current
  }

  /** The scheduler picks a runnable process or one that comes before it. */
  lemma {:induction false} ScanDistance(procs: seq<Process>, current: nat, k: nat, n: nat, p: nat)
    requires |procs| == MAX_PROCESSES && current < MAX_PROCESSES && p < MAX_PROCESSES && procs[p].state == Runnable
    requires k < Distance(current, p) <= k + n && k + n <= MAX_PROCESSES
    ensures var r := Scan(procs, current, k, n);
            r.Some? && k < Distance(current, r.value) <= Distance(current, p)
    decreases n
  {
    var c := (current + k + 1) % MAX_PROCESSES;
    assert Distance(current, c) == k + 1;
    if Distance(current, p) == k + 1 {
      assert c == p;
    } else if procs[c].state != Runnable {
      ScanDistance(procs, current, k + 1, n - 1, p);
    }
  }

  /** Each scheduling decision either runs `p` or brings it closer. */
  lemma DecisionApproaches(s: Sys, p: nat)
    requires Sized(s) && p < MAX_PROCESSES && s.procs[p].state == Runnable
    ensures var s' := Switch(s);
            !s'.halted && (s'.current == p || (p != s.current && Distance(s'.current, p) < Distance(s.current, p)) ||
              p == s.current)
  {
    ScanDistance(s.procs, s.current, 0, MAX_PROCESSES, p);
  }

  /** The step ends with a decision of the scheduler. */
  predicate Decides(s: Sys, step: Step)
    requires Sized(s)
  {
    match step
    case DoSend(target, ptr) => SendError(s, target, ptr).None?
    case DoReceive(ptr) => Contains(s.procs[s.current], ptr, MSG) && Sender(s.procs, s.current, 0).None?
    case DoYield => true
    case DoPreempt => true
    case DoExit => true
    case _ => false
  }

  lemma StepApproaches(s: Sys, step: Step, p: nat)
    requires Inv(s) && Enabled(s, step) && !step.DoRunSlot? && p < MAX_PROCESSES && p != s.current
    requires Do(s, step).procs[p].state == Runnable && Do(s, step).current != p
    ensures Sized(Do(s, step))
    ensures if Decides(s, step) then Distance(Do(s, step).current, p) < Distance(s.current, p)
      else Do(s, step).current == s.current
  {
    hide Agrees, Scan, FreeSlot, WriteMessage, Message, Sender;
    StepInv(s, step);
    if Decides(s, step) {
      var s1 := BeforeSwitch(s, step);
      assert Do(s, step) == Switch(s1);
      DecisionApproaches(s1, p);
    }
  }

  /** The state in which the scheduler decides. */
  ghost function BeforeSwitch(s: Sys, step: Step): (s1: Sys)
    requires Inv(s) && Enabled(s, step) && Decides(s, step)
    ensures Sized(s1) && s1.current == s.current && Do(s, step) == Switch(s1)
  {
    var p := s.current;
    var b := s.procs[p];
    match step
    case DoSend(target, ptr) =>
      var msg := Message(b, ptr);
      if s.procs[target].state == BlockedOnReceive then
        Update(Update(s, target, Woken(s.procs[target], p, msg), [SendStart(p, target, msg), Deliver(p, target, msg)]),
               p, b.(ipcBuffer := ptr, state := BlockedOnReply(target), pending := InSend), [])
      else Update(s, p, b.(ipcBuffer := ptr, state := BlockedOnSend(target), pending := InSend),
        [SendStart(p, target, msg)])
    case DoReceive(ptr) =>
      Update(s, p, b.(ipcBuffer := ptr, ipcPeer := 0, state := BlockedOnReceive, pending := InReceive),
        [ReceiveStart(p)])
    case DoExit => Update(s, p, b.(state := Exited), [Died(p)])
    case _ => s
  }

  /** `p` is runnable and not running in every state of the run. */
  ghost predicate Waits(s: Sys, steps: seq<Step>, p: nat)
    decreases |steps|
  {
    && Inv(s) && p < MAX_PROCESSES && s.procs[p].state == Runnable && s.current != p
    && (steps != [] ==>
         Enabled(s, steps[0]) && !steps[0].DoRunSlot? && !s.halted && Waits(Do(s, steps[0]), steps[1..], p))
  }

  ghost function Decisions(s: Sys, steps: seq<Step>, p: nat): nat
    requires Waits(s, steps, p)
    decreases |steps|
  {
    if steps == [] then 0
    else (if Decides(s, steps[0]) then 1 else 0) + Decisions(Do(s, steps[0]), steps[1..], p)
  }

  /** A process that stays runnable waits for fewer than MAX_PROCESSES - 1 scheduling decisions. */
  lemma {:induction false} BoundedWaiting(s: Sys, steps: seq<Step>, p: nat)
    requires Waits(s, steps, p)
    ensures Decisions(s, steps, p) < Distance(s.current, p) <= MAX_PROCESSES - 1
    decreases |steps|
  {
    hide Do, Decides, Inv;
    InvReady(s);
    if steps != [] {
      assert Waits(Do(s, steps[0]), steps[1..], p);
      StepApproaches(s, steps[0], p);
      BoundedWaiting(Do(s, steps[0]), steps[1..], p);
    }
  }
}
