/** The process table and its system calls as the kernel runs them: in-place updates of the table,
    table scans and a byte-by-byte copy. Each call is one step of the transition system of `Ipc`
    and keeps its invariant. */
module Kernel {
  import opened Words
  import opened ErrorCodes
  import opened Ipc
  import opened IpcInvariant
  import L = IpcLaws

  class ProcessManager {
    const table: array<Process>
    var current: nat
    var halted: bool
    ghost var log: seq<Event>

    ghost function State(): Sys
      reads this`current, this`halted, this`log, table
    {
      Sys(table[..], current, halted, log)
    }

    /** The running process can take the step. */
    ghost predicate Ready(step: Step)
      reads this`current, this`halted, this`log, table
    {
      Inv(State()) && Enabled(State(), step)
    }

    /** `init_process_manager`. */
    constructor (memory: seq<byte>, base: nat)
      requires base + |memory| < W64
      ensures fresh(table) && Initial(State()) && Inv(State()) && table[0] == Fresh(base, memory)
    {
      var empty := Process(Empty, 0, 0, 0, 0, NoCall, []);
      table := new Process[MAX_PROCESSES](i => if i == 0 then Fresh(base, memory) else empty);
      current, halted, log := 0, false, [];
      new;
      InitialInv(State());
    }

    predicate IsLive(p: nat)
      reads table
    {
      p < table.Length && Live(table[p])
    }

    method NextRunnableAfter() returns (r: Option<nat>)
      requires Sized(State())
      ensures r == NextRunnable(table[..], current)
      ensures r.None? <==> L.NoneRunnable(table[..])
      ensures r.Some? ==> exists k: nat :: L.FirstAt(table[..], current, r.value, k)
    {
      hide L.FirstAt, L.NoneRunnable, NextRunnable;
      L.NextIs(table[..], current);
      r := ScanTable();
    }

    /** The scan itself. */
    method ScanTable() returns (r: Option<nat>)
      requires Sized(State())
      ensures r == NextRunnable(table[..], current)
    {
      var step := 0;
      while step < MAX_PROCESSES
        invariant 0 <= step <= MAX_PROCESSES
        invariant NextRunnable(table[..], current) == Scan(table[..], current, step, MAX_PROCESSES - step)
      {
        var candidate := (current + step + 1) % MAX_PROCESSES;
        if table[candidate].state == Runnable { return Some(candidate); }
        step := step + 1;
      }
      r := None;
    }

    /** `block_current`, and `yield_cpu` when the caller stays runnable. */
    method SwitchAway()
      requires Sized(State())
      modifies this`current, this`halted
      ensures State() == Switch(old(State())) && L.HandsOver(old(State()), State())
    {
      hide L.FirstAt, L.NoneRunnable, L.HandsOver, NextRunnable;
      L.SwitchLaw(State());
      var next := NextRunnableAfter();
      match next
      case Some(n) => current, halted := n, false;
      case None => halted := true;
    }

    /** The kernel's copy loop: one byte at a time from one address space to the other. */
    method CopyUserMessage(src: nat, srcPtr: nat, dst: nat, dstPtr: nat)
      requires Sized(State()) && src < MAX_PROCESSES && dst < MAX_PROCESSES && src != dst
      requires Mapped(table[src]) && Contains(table[src], srcPtr, MSG)
      requires Mapped(table[dst]) && Contains(table[dst], dstPtr, MSG)
      modifies table
      ensures table[..] ==
        old(table[..])[dst := WriteMessage(old(table[dst]), dstPtr, Message(old(table[src]), srcPtr))]
    {
      ghost var msg := Message(table[src], srcPtr);
      ghost var before := table[dst].memory;
      MessageBytes(table[src], srcPtr);
      MessageWritten(table[dst], dstPtr, msg);
      var si, di := srcPtr - table[src].layerBase, dstPtr - table[dst].layerBase;
      CopiedNone(before, msg, di);
      hide Message, WriteMessage, Copied;
      var offset := 0;
      while offset < MSG
        invariant 0 <= offset <= MSG
        invariant forall p :: 0 <= p < MAX_PROCESSES && p != dst ==> table[p] == old(table[p])
        invariant table[dst] == old(table[dst]).(memory := Copied(before, msg, di, offset))
      {
        var octet := table[src].memory[si + offset];
        CopiedMore(before, msg, di, offset);
        table[dst] := table[dst].(memory := table[dst].memory[di + offset := octet]);
        offset := offset + 1;
      }
      assert table[..] == old(table[..])[dst := table[dst]];
    }

    method SendIpc(target: nat, ptr: nat) returns (r: Option<int>)
      requires Ready(DoSend(target, ptr))
      modifies this`current, this`halted, this`log, table
      ensures Inv(State()) && State() == Do(old(State()), DoSend(target, ptr))
      ensures r == SendError(old(State()), target, ptr) && L.Sent(old(State()), State(), target, ptr, r)
    {
      L.SendLaw(State(), target, ptr);
      hide L.Sent, L.HandsOver, Agrees, NoLostRendezvous, WriteMessage, Scan, Switch;
      StepInv(State(), DoSend(target, ptr));
      if current == target || !IsLive(target) { return Some(ERR_INVALID_PROCESS); }
      if !Contains(table[current], ptr, MSG) { return Some(ERR_INVALID_POINTER); }
      ghost var msg := Message(table[current], ptr);
      if table[target].state == BlockedOnReceive {
        var dst := table[target].ipcBuffer;
        if !Contains(table[target], dst, MSG) { return Some(ERR_INVALID_POINTER); }
        DeliverTo(target, ptr);
      } else {
        table[current] := table[current].(ipcBuffer := ptr, state := BlockedOnSend(target), pending := InSend);
        log := log + [SendStart(current, target, msg)];
      }
      SwitchAway();
      r := None;
    }

    /** The message goes straight into the buffer of a process that waits for one. */
    method DeliverTo(target: nat, ptr: nat)
      requires Sized(State()) && target < MAX_PROCESSES && target != current
      requires Mapped(table[current]) && Contains(table[current], ptr, MSG)
      requires Mapped(table[target]) && Contains(table[target], table[target].ipcBuffer, MSG)
      modifies this`log, table
      ensures var p, b, msg := current, old(table[current]), Message(old(table[current]), ptr);
              && |msg| == MSG
              && table[..] == old(table[..])[target := Woken(old(table[target]), p, msg)][p :=
                   b.(ipcBuffer := ptr, state := BlockedOnReply(target), pending := InSend)]
              && log == old(log) + [SendStart(p, target, msg), Deliver(p, target, msg)] + []
    {
      hide WriteMessage;
      ghost var msg := Message(table[current], ptr);
      CopyUserMessage(current, ptr, target, table[target].ipcBuffer);
      table[target] := table[target].(ipcPeer := current, state := Runnable);
      table[current] := table[current].(ipcBuffer := ptr, state := BlockedOnReply(target), pending := InSend);
      log := log + [SendStart(current, target, msg), Deliver(current, target, msg)] + [];
    }

    method ReceiveIpc(ptr: nat) returns (r: Option<int>)
      requires Ready(DoReceive(ptr))
      modifies this`current, this`halted, this`log, table
      ensures Inv(State()) && State() == Do(old(State()), DoReceive(ptr))
      ensures r == ReceiveResult(old(State()), ptr) && L.Received(old(State()), State(), ptr, r)
    {
      L.ReceiveLaw(State(), ptr);
      hide L.Received, L.HandsOver, Agrees, NoLostRendezvous, WriteMessage, Message, Scan;
      StepInv(State(), DoReceive(ptr));
      if !Contains(table[current], ptr, MSG) { return Some(ERR_INVALID_POINTER); }
      var sender := 0;
      while sender < MAX_PROCESSES
        invariant 0 <= sender <= MAX_PROCESSES
        invariant State() == old(State())
        invariant Sender(table[..], current, 0) == Sender(table[..], current, sender)
      {
        if table[sender].state == BlockedOnSend(current) {
          r := TakeFrom(sender, ptr);
          return;
        }
        sender := sender + 1;
      }
      table[current] := table[current].(ipcBuffer := ptr, ipcPeer := 0, state := BlockedOnReceive,
        pending := InReceive);
      log := log + [ReceiveStart(current)];
      SwitchAway();
      r := None;
    }

    /** The body of the scan: the message of a process that waits to send is taken over. */
    method TakeFrom(sender: nat, ptr: nat) returns (r: Option<int>)
      requires Ready(DoReceive(ptr)) && Contains(table[current], ptr, MSG)
      requires Sender(table[..], current, 0) == Some(sender)
      modifies this`log, table
      ensures State() == Receive(old(State()), ptr)
      ensures r == ReceiveResult(old(State()), ptr)
    {
      hide Agrees, NoLostRendezvous, WriteMessage, Message, Sender;
      var src := table[sender].ipcBuffer;
      if !Contains(table[sender], src, MSG) {
        table[sender] := table[sender].(state := Exited);
        log := log + [Died(sender)];
        return Some(ERR_INVALID_POINTER);
      }
      ghost var msg := Message(table[sender], src);
      CopyUserMessage(sender, src, current, ptr);
      table[current] := table[current].(ipcBuffer := ptr);
      table[sender] := table[sender].(state := BlockedOnReply(current));
      log := log + [ReceiveStart(current), Deliver(sender, current, msg)] + [ReceiveReturn(current, sender)];
      r := Some(sender);
    }

    method ReplyIpc(target: nat, ptr: nat) returns (r: int)
      requires Ready(DoReply(target, ptr))
      modifies this`log, table
      ensures Inv(State()) && State() == Do(old(State()), DoReply(target, ptr))
      ensures r == ReplyResult(old(State()), target, ptr) && L.Answered(old(State()), State(), target, ptr, r)
    {
      L.ReplyLaw(State(), target, ptr);
      hide L.Answered, Agrees, NoLostRendezvous, WriteMessage, Message;
      StepInv(State(), DoReply(target, ptr));
      if !IsLive(target) { return ERR_INVALID_PROCESS; }
      if !Contains(table[current], ptr, MSG) { return ERR_INVALID_POINTER; }
      if table[target].state != BlockedOnReply(current) { return ERR_INVALID_PROCESS; }
      var dst := table[target].ipcBuffer;
      if !Contains(table[target], dst, MSG) { return ERR_INVALID_POINTER; }
      ghost var msg := Message(table[current], ptr);
      CopyUserMessage(current, ptr, target, dst);
      table[target] := table[target].(ipcPeer := current, ipcBuffer := 0, state := Runnable);
      log := log + [Reply(current, target, msg)];
      assert table[..] == old(table[..])[target := table[target]];
      r := 0;
    }

    method YieldCpu()
      requires Ready(DoYield)
      modifies this`current, this`halted
      ensures Inv(State()) && State() == Do(old(State()), DoYield) && L.Yielded(old(State()), State())
    {
      hide L.Yielded, L.HandsOver;
      L.YieldLaw(State());
      StepInv(State(), DoYield);
      SwitchAway();
    }

    method ExitProcess()
      requires Ready(DoExit)
      modifies this`current, this`halted, this`log, table
      ensures Inv(State()) && State() == Do(old(State()), DoExit) && L.Ended(old(State()), State())
    {
      L.ExitLaw(State());
      hide L.Ended, L.HandsOver, Agrees, NoLostRendezvous, Scan;
      StepInv(State(), DoExit);
      table[current] := table[current].(state := Exited);
      log := log + [Died(current)];
      SwitchAway();
    }

    method KillProcess(pid: nat) returns (r: bool)
      requires Ready(DoKill(pid))
      modifies this`log, table
      ensures Inv(State()) && State() == Do(old(State()), DoKill(pid))
      ensures r <==> pid < MAX_PROCESSES && pid != current && Live(old(State()).procs[pid])
      ensures L.Killed(old(State()), State(), pid, r)
    {
      hide Agrees, NoLostRendezvous;
      StepInv(State(), DoKill(pid));
      if pid >= MAX_PROCESSES || pid == current { return false; }
      if !Live(table[pid]) { return false; }
      table[pid] := table[pid].(state := Exited);
      log := log + [Died(pid)];
      r := true;
    }

    method FindFreeSlot() returns (r: Option<nat>)
      requires Sized(State())
      ensures r == FreeSlot(table[..], 1)
      ensures r.None? <==> forall p :: 1 <= p < MAX_PROCESSES ==> !L.Dead(table[p])
      ensures r.Some? ==>
        1 <= r.value < MAX_PROCESSES && L.Dead(table[r.value]) && forall p :: 1 <= p < r.value ==> !L.Dead(table[p])
    {
      var i := 1;
      while i < MAX_PROCESSES
        invariant 1 <= i <= MAX_PROCESSES
        invariant FreeSlot(table[..], 1) == FreeSlot(table[..], i)
        invariant forall p :: 1 <= p < i ==> Live(table[p])
      {
        if !Live(table[i]) { return Some(i); }
        i := i + 1;
      }
      r := None;
    }

    /** Take a slot and provision its control block: the new process is runnable and has no history. */
    method CreateProcess(base: nat, memory: seq<byte>) returns (r: int)
      requires Ready(DoCreate(base, memory))
      modifies this`log, table
      ensures Inv(State()) && State() == Do(old(State()), DoCreate(base, memory))
      ensures r == ERR_NO_CAPACITY <==> forall p :: 1 <= p < MAX_PROCESSES ==> Live(old(State()).procs[p])
      ensures r != ERR_NO_CAPACITY ==>
        && 1 <= r < MAX_PROCESSES && !Live(old(State()).procs[r])
        && table[..] == old(table[..])[r := Process(Runnable, base, |memory|, 0, 0, NoCall, memory)]
        && log == old(log) + [Born(r)]
        && forall p :: 1 <= p < r ==> Live(old(State()).procs[p])
    {
      hide Agrees, NoLostRendezvous;
      StepInv(State(), DoCreate(base, memory));
      FirstFree(table[..], 1);
      var slot := FindFreeSlot();
      match slot
      case None => r := ERR_NO_CAPACITY;
      case Some(i) =>
        table[i] := Fresh(base, memory);
        log := log + [Born(i)];
        r := i;
    }

    /** The tail of `send_ipc` or `receive_ipc`, after `block_current` has returned. */
    method Resume() returns (r: int)
      requires Ready(DoReturn)
      modifies this`log, table
      ensures Inv(State()) && State() == Do(old(State()), DoReturn)
      ensures L.Returned(old(State()), State(), r)
    {
      hide Agrees, NoLostRendezvous;
      StepInv(State(), DoReturn);
      var b := table[current];
      table[current] := b.(pending := NoCall);
      if b.pending == InSend {
        log := log + [SendReturn(current)];
        r := 0;
      } else {
        log := log + [ReceiveReturn(current, b.ipcPeer)];
        r := b.ipcPeer;
      }
    }
  }

  lemma MessageBytes(b: Process, ptr: nat)
    requires Ipc.Mapped(b) && Contains(b, ptr, MSG)
    ensures var m := Message(b, ptr);
            |m| == MSG && forall k :: 0 <= k < MSG ==> m[k] == b.memory[ptr - b.layerBase + k]
  {
  }

  /** Memory into which the first `k` bytes of the message have been copied. */
  function Copied(before: seq<byte>, msg: seq<byte>, at: nat, k: nat): (r: seq<byte>)
    requires k <= |msg| && at + |msg| <= |before|
    ensures |r| == |before|
  {
    before[..at] + msg[..k] + before[at + k..]
  }

  lemma MessageWritten(b: Process, ptr: nat, msg: seq<byte>)
    requires Ipc.Mapped(b) && Contains(b, ptr, MSG) && |msg| == MSG
    ensures WriteMessage(b, ptr, msg) == b.(memory := Copied(b.memory, msg, ptr - b.layerBase, MSG))
  {
    assert msg[..MSG] == msg;
  }

  lemma CopiedNone(before: seq<byte>, msg: seq<byte>, at: nat)
    requires at + |msg| <= |before|
    ensures Copied(before, msg, at, 0) == before
  {
  }

  /** One byte more. */
  lemma CopiedMore(before: seq<byte>, msg: seq<byte>, at: nat, k: nat)
    requires k < |msg| && at + |msg| <= |before|
    ensures Copied(before, msg, at, k)[at + k := msg[k]] == Copied(before, msg, at, k + 1)
  {
    assert before[at + k..] == [before[at + k]] + before[at + k + 1..];
    assert msg[..k + 1] == msg[..k] + [msg[k]];
  }

  lemma {:induction false} FirstFree(procs: seq<Process>, i: nat)
    requires i <= |procs|
    ensures FreeSlot(procs, i).Some? ==> forall p :: i <= p < FreeSlot(procs, i).value ==> Live(procs[p])
    decreases |procs| - i
  {
    if i < |procs| && Live(procs[i]) {
      FirstFree(procs, i + 1);
    }
  }
}
