/** The process table, rendezvous IPC and the round-robin scheduler, as a transition system.

    A step is what happens between two moments at which user code can run: a system call up to
    its return or to the switch to another process, the return of a call that had been
    suspended, or a step of user code on its own memory. */
module Ipc {
  import opened Words
  import opened ErrorCodes

  const MAX_PROCESSES := 64
  const MSG := 64

  datatype PState =
    | Empty
    | Runnable
    | BlockedOnSend(target: nat)
    | BlockedOnReceive
    | BlockedOnReply(peer: nat)
    | Exited

  /** The system call a process is suspended in. */
  datatype Pending = NoCall | InSend | InReceive

  /** A process: its control block and the memory of its layer. */
  datatype Process = Process(
    state: PState, layerBase: nat, layerSize: nat, ipcBuffer: nat, ipcPeer: nat,
    pending: Pending, memory: seq<byte>)

  datatype Event =
    | SendStart(p: nat, target: nat, msg: seq<byte>)
    | Deliver(p: nat, q: nat, msg: seq<byte>)
    | Reply(q: nat, p: nat, msg: seq<byte>)
    | SendReturn(p: nat)
    | ReceiveStart(q: nat)
    | ReceiveReturn(q: nat, from': nat)
    | Born(p: nat)
    | Died(p: nat)

  /** `halted` says that the last process blocked with nobody left to run. */
  datatype Sys = Sys(procs: seq<Process>, current: nat, halted: bool, log: seq<Event>)

  predicate Live(b: Process) { b.state != Empty && b.state != Exited }

  /** `contains_range`: the sum is checked for overflow. */
  predicate Contains(b: Process, ptr: nat, len: nat) {
    ptr + len < W64 && b.layerBase <= ptr && ptr + len <= b.layerBase + b.layerSize
  }

  predicate Sized(s: Sys) { |s.procs| == MAX_PROCESSES && s.current < MAX_PROCESSES }

  /** A process whose memory is the layer its control block describes. */
  predicate Mapped(b: Process) { |b.memory| == b.layerSize && b.layerBase + b.layerSize < W64 }

  function Message(b: Process, ptr: nat): seq<byte>
    requires Mapped(b) && Contains(b, ptr, MSG)
  {
    b.memory[ptr - b.layerBase..ptr - b.layerBase + MSG]
  }

  function WriteMessage(b: Process, ptr: nat, msg: seq<byte>): (b': Process)
    requires Mapped(b) && Contains(b, ptr, MSG) && |msg| == MSG
    ensures Mapped(b') && b' == b.(memory := b'.memory) && Message(b', ptr) == msg
  {
    var i := ptr - b.layerBase;
    var m := b.memory[..i] + msg + b.memory[i + MSG..];
    assert m[i..i + MSG] == msg;
    b.(memory := m)
  }

  // ----- Scheduling -----

  /** The first runnable process among the `n` that follow the first `k` after `current`. */
  function Scan(procs: seq<Process>, current: nat, k: nat, n: nat): (r: Option<nat>)
    requires |procs| == MAX_PROCESSES
    ensures r.Some? ==> r.value < MAX_PROCESSES && procs[r.value].state == Runnable
    decreases n
  {
    if n == 0 then None
    else
      var c := (current + k + 1) % MAX_PROCESSES;
      if procs[c].state == Runnable then Some(c) else Scan(procs, current, k + 1, n - 1)
  }

  function NextRunnable(procs: seq<Process>, current: nat): Option<nat>
    requires |procs| == MAX_PROCESSES
  {
    Scan(procs, current, 0, MAX_PROCESSES)
  }

  /** Give the CPU to the next runnable process, or halt. */
  function Switch(s: Sys): Sys
    requires Sized(s)
  {
    match NextRunnable(s.procs, s.current)
    case Some(n) => s.(current := n, halted := false)
    case None => s.(halted := true)
  }

  // ----- System calls -----

  predicate ValidLive(s: Sys, p: nat)
    requires Sized(s)
  {
    p < MAX_PROCESSES && Live(s.procs[p])
  }

  function Update(s: Sys, p: nat, b: Process, events: seq<Event>): Sys
    requires Sized(s) && p < MAX_PROCESSES
  {
    s.(procs := s.procs[p := b], log := s.log + events)
  }

  /** What `send_ipc` answers at once, None when the call suspends. */
  function SendError(s: Sys, target: nat, ptr: nat): Option<int>
    requires Sized(s)
  {
    if s.current == target || !ValidLive(s, target) then Some(ERR_INVALID_PROCESS)
    else if !Contains(s.procs[s.current], ptr, MSG) then Some(ERR_INVALID_POINTER)
    else if s.procs[target].state == BlockedOnReceive && !Contains(s.procs[target], s.procs[target].ipcBuffer, MSG)
      then Some(ERR_INVALID_POINTER)
    else None
  }

  predicate AllMapped(s: Sys) {
    forall p :: 0 <= p < |s.procs| && Live(s.procs[p]) ==> Mapped(s.procs[p])
  }

  /** The process that receives `msg` from `p` into its waiting buffer. */
  function Woken(b: Process, p: nat, msg: seq<byte>): Process
    requires Mapped(b) && Contains(b, b.ipcBuffer, MSG) && |msg| == MSG
  {
    WriteMessage(b, b.ipcBuffer, msg).(ipcPeer := p, state := Runnable)
  }

  function Send(s: Sys, target: nat, ptr: nat): Sys
    requires Sized(s) && AllMapped(s) && Live(s.procs[s.current])
  {
    if SendError(s, target, ptr).Some? then s
    else
      var p := s.current;
      var b := s.procs[p];
      var msg := Message(b, ptr);
      if s.procs[target].state == BlockedOnReceive then
        var s1 := Update(s, target, Woken(s.procs[target], p, msg),
          [SendStart(p, target, msg), Deliver(p, target, msg)]);
        Switch(Update(s1, p, b.(ipcBuffer := ptr, state := BlockedOnReply(target), pending := InSend), []))
      else
        Switch(Update(s, p, b.(ipcBuffer := ptr, state := BlockedOnSend(target), pending := InSend),
          [SendStart(p, target, msg)]))
  }

  /** The lowest-numbered process at or after `i` that is blocked sending to `q`. */
  function Sender(procs: seq<Process>, q: nat, i: nat): (r: Option<nat>)
    requires i <= |procs|
    ensures r.Some? ==> i <= r.value < |procs| && procs[r.value].state == BlockedOnSend(q)
    ensures r.None? ==> forall p :: i <= p < |procs| ==> procs[p].state != BlockedOnSend(q)
    decreases |procs| - i
  {
    if i == |procs| then None
    else if procs[i].state == BlockedOnSend(q) then Some(i)
    else Sender(procs, q, i + 1)
  }

  /** What `receive_ipc` answers at once: an error or the sender's id; None when it suspends. */
  function ReceiveResult(s: Sys, ptr: nat): Option<int>
    requires Sized(s)
  {
    if !Contains(s.procs[s.current], ptr, MSG) then Some(ERR_INVALID_POINTER)
    else
      match Sender(s.procs, s.current, 0)
      case None => None
      case Some(p) =>
        if !Contains(s.procs[p], s.procs[p].ipcBuffer, MSG) then Some(ERR_INVALID_POINTER) else Some(p)
  }

  function Receive(s: Sys, ptr: nat): Sys
    requires Sized(s) && AllMapped(s) && Live(s.procs[s.current])
  {
    var q := s.current;
    var b := s.procs[q];
    if !Contains(b, ptr, MSG) then s
    else
      match Sender(s.procs, q, 0)
      case Some(p) =>
        var a := s.procs[p];
        if !Contains(a, a.ipcBuffer, MSG) then Update(s, p, a.(state := Exited), [Died(p)])
        else
          var msg := Message(a, a.ipcBuffer);
          var s1 := Update(s, q, WriteMessage(b, ptr, msg).(ipcBuffer := ptr), [ReceiveStart(q), Deliver(p, q, msg)]);
          Update(s1, p, s1.procs[p].(state := BlockedOnReply(q)), [ReceiveReturn(q, p)])
      case None =>
        Switch(Update(s, q, b.(ipcBuffer := ptr, ipcPeer := 0, state := BlockedOnReceive, pending := InReceive),
          [ReceiveStart(q)]))
  }

  function ReplyResult(s: Sys, target: nat, ptr: nat): int
    requires Sized(s)
  {
    if !ValidLive(s, target) then ERR_INVALID_PROCESS
    else if !Contains(s.procs[s.current], ptr, MSG) then ERR_INVALID_POINTER
    else if s.procs[target].state != BlockedOnReply(s.current) then ERR_INVALID_PROCESS
    else if !Contains(s.procs[target], s.procs[target].ipcBuffer, MSG) then ERR_INVALID_POINTER
    else 0
  }

  function ReplyTo(s: Sys, target: nat, ptr: nat): Sys
    requires Sized(s) && AllMapped(s) && Live(s.procs[s.current])
  {
    if ReplyResult(s, target, ptr) != 0 then s
    else
      var q := s.current;
      var msg := Message(s.procs[q], ptr);
      var b := s.procs[target];
      Update(s, target, WriteMessage(b, b.ipcBuffer, msg).(ipcPeer := q, ipcBuffer := 0, state := Runnable),
        [Reply(q, target, msg)])
  }

  function Exit(s: Sys): Sys
    requires Sized(s)
  {
    Switch(Update(s, s.current, s.procs[s.current].(state := Exited), [Died(s.current)]))
  }

  function Kill(s: Sys, pid: nat): Sys
    requires Sized(s)
  {
    if pid >= MAX_PROCESSES || pid == s.current || !Live(s.procs[pid]) then s
    else Update(s, pid, s.procs[pid].(state := Exited), [Died(pid)])
  }

  /** The lowest free slot from 1 on. */
  function FreeSlot(procs: seq<Process>, i: nat): (r: Option<nat>)
    requires i <= |procs|
    ensures r.Some? ==> i <= r.value < |procs| && !Live(procs[r.value])
    ensures r.None? ==> forall p :: i <= p < |procs| ==> Live(procs[p])
    decreases |procs| - i
  {
    if i == |procs| then None
    else if !Live(procs[i]) then Some(i)
    else FreeSlot(procs, i + 1)
  }

  /** A new process with a layer of its own, in any state of memory. */
  function Fresh(base: nat, memory: seq<byte>): Process {
    Process(Runnable, base, |memory|, 0, 0, NoCall, memory)
  }

  function Create(s: Sys, base: nat, memory: seq<byte>): Sys
    requires Sized(s)
  {
    match FreeSlot(s.procs, 1)
    case None => s
    case Some(i) => Update(s, i, Fresh(base, memory), [Born(i)])
  }

  /** The return of a suspended call of the current process. */
  function Return(s: Sys): Sys
    requires Sized(s)
  {
    var p := s.current;
    var b := s.procs[p];
    match b.pending
    case NoCall => s
    case InSend => Update(s, p, b.(pending := NoCall), [SendReturn(p)])
    case InReceive => Update(s, p, b.(pending := NoCall), [ReceiveReturn(p, b.ipcPeer)])
  }

  // ----- Steps -----

  datatype Step =
    | DoSend(target: nat, ptr: nat)
    | DoReceive(ptr: nat)
    | DoReply(target: nat, ptr: nat)
    | DoYield
    | DoPreempt
    | DoRunSlot(slot: nat)
    | DoExit
    | DoKill(pid: nat)
    | DoCreate(base: nat, memory: seq<byte>)
    | DoCreateFailed(base: nat, memory: seq<byte>)
    | DoReturn
    | DoWrite(memory: seq<byte>)

  /** User code can take the step: the CPU is not halted, and a suspended call returns first. */
  predicate Enabled(s: Sys, step: Step)
    requires Sized(s)
  {
    && !s.halted
    && (step.DoReturn? <==> s.procs[s.current].pending != NoCall)
    && (step.DoPreempt? ==> s.current != 0)
    && (step.DoCreate? ==> step.base + |step.memory| < W64)
    && (step.DoCreateFailed? ==> step.base + |step.memory| < W64)
    && (step.DoWrite? ==> |step.memory| == |s.procs[s.current].memory|)
  }

  function Do(s: Sys, step: Step): Sys
    requires Sized(s) && AllMapped(s) && Live(s.procs[s.current])
  {
    match step
    case DoSend(target, ptr) => Send(s, target, ptr)
    case DoReceive(ptr) => Receive(s, ptr)
    case DoReply(target, ptr) => ReplyTo(s, target, ptr)
    case DoYield => Switch(s)
    case DoPreempt => Switch(s)
    case DoRunSlot(slot) => if slot < MAX_PROCESSES && s.procs[slot].state == Runnable then s.(current := slot) else s
    case DoExit => Exit(s)
    case DoKill(pid) => Kill(s, pid)
    case DoCreate(base, memory) => Create(s, base, memory)
    case DoCreateFailed(base, memory) =>
      (match FreeSlot(s.procs, 1)
       case None => s
       case Some(i) => Update(Create(s, base, memory), i, Fresh(base, memory).(state := Exited), [Died(i)]))
    case DoReturn => Return(s)
    case DoWrite(memory) => Update(s, s.current, s.procs[s.current].(memory := memory), [])
  }

  /** The kernel after initialisation: process 0 is running, all other slots are empty. */
  predicate Initial(s: Sys) {
    && Sized(s) && s.current == 0 && !s.halted && s.log == []
    && s.procs[0].state == Runnable && s.procs[0].pending == NoCall && Mapped(s.procs[0])
    && forall p :: 1 <= p < MAX_PROCESSES ==> s.procs[p].state == Empty
  }
}
