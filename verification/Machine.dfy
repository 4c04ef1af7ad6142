/** A machine that fetches, decodes and performs the emitted bytes.

    Data memory is a map from the addresses of 8-byte stack words to their contents; an
    access outside its domain is a fault.  Flags are known only right after `test` and
    `cmp`: an instruction that tests them at any other moment is a fault as well. */
module Machine {
  import opened Words
  import opened X86

  /** One `print_num` system call: the value and whether a newline follows. */
  datatype Print = Print(value: u64, newline: bool)

  datatype Flags = Flags(zf: bool, cf: bool)

  datatype State = State(
    pc: int, rax: u64, rcx: u64, rdx: u64, rdi: u64, rsi: u64, rsp: u64, rbp: u64,
    flags: Option<Flags>, mem: map<int, u64>, out: seq<Print>)

  /** What the caller-saved registers hold when a system call returns. */
  datatype Clobber = Clobber(rax: u64, rcx: u64, rdx: u64, rdi: u64, rsi: u64)

  /** The kernel's choice of those registers, as a function of the prints so far. */
  type Kernel = seq<Print> -> Clobber

  datatype Outcome = Running(st: State) | Exited(out: seq<Print>) | Fault

  const SYS_EXIT := 6
  const SYS_PRINT_NUM := 32

  function Holds(cc: Cond, f: Flags): bool {
    match cc
    case E => f.zf
    case NE => !f.zf
    case B => f.cf
    case BE => f.cf || f.zf
    case A => !f.cf && !f.zf
    case AE => !f.cf
  }

  function Bit(b: bool): u64 { if b then 1 else 0 }

  function Push(st: State, v: u64): Outcome {
    var a := Wrap(st.rsp - 8);
    if a in st.mem then Running(st.(rsp := a, mem := st.mem[a := v])) else Fault
  }

  function SystemCall(k: Kernel, st: State): Outcome {
    if st.rax == SYS_EXIT then Exited(st.out)
    else if st.rax == SYS_PRINT_NUM then
      var out := st.out + [Print(st.rdi, st.rsi != 0)];
      var c := k(out);
      Running(st.(rax := c.rax, rcx := c.rcx, rdx := c.rdx, rdi := c.rdi, rsi := c.rsi, flags := None, out := out))
    else Fault
  }

  /** The effect of `i` on a state whose `pc` already points past `i`. */
  function Perform(i: Instr, k: Kernel, st: State): Outcome {
    match i
    case MovRaxImm(v) => Running(st.(rax := v))
    case PushRax => Push(st, st.rax)
    case PopRax =>
      if st.rsp in st.mem then Running(st.(rax := st.mem[st.rsp], rsp := Wrap(st.rsp + 8))) else Fault
    case MovRcxRax => Running(st.(rcx := st.rax))
    case LoadRax(d) =>
      var a := Wrap(st.rbp + d);
      if a in st.mem then Running(st.(rax := st.mem[a])) else Fault
    case StoreRax(d) =>
      var a := Wrap(st.rbp + d);
      if a in st.mem then Running(st.(mem := st.mem[a := st.rax])) else Fault
    case AddRaxRcx => Running(st.(rax := Wrap(st.rax + st.rcx), flags := None))
    case SubRaxRcx => Running(st.(rax := Wrap(st.rax - st.rcx), flags := None))
    case ImulRaxRcx => Running(st.(rax := Wrap(st.rax * st.rcx), flags := None))
    case NegRax => Running(st.(rax := Wrap(0 - st.rax), flags := None))
    case TestRcxRcx => Running(st.(flags := Some(Flags(st.rcx == 0, false))))
    case TestRaxRax => Running(st.(flags := Some(Flags(st.rax == 0, false))))
    case XorEdxEdx => Running(st.(rdx := 0, flags := None))
    case XorEaxEax => Running(st.(rax := 0, flags := None))
    case XorEsiEsi => Running(st.(rsi := 0, flags := None))
    case XorEdiEdi => Running(st.(rdi := 0, flags := None))
    case DivRcx =>
      // #DE on a zero divisor; a dividend with a non-zero high half is outside the subset
      if st.rcx == 0 || st.rdx != 0 then Fault
      else Running(st.(rax := st.rax / st.rcx, rdx := st.rax % st.rcx, flags := None))
    case CmpRaxRcx => Running(st.(flags := Some(Flags(st.rax == st.rcx, st.rax < st.rcx))))
    case SetAl(cc) =>
      if st.flags.Some? then Running(st.(rax := st.rax - st.rax % 256 + Bit(Holds(cc, st.flags.value)))) else Fault
    case MovzxRaxAl => Running(st.(rax := st.rax % 256))
    case Je(r) =>
      if st.flags.None? then Fault
      else if st.flags.value.zf then Running(st.(pc := st.pc + r))
      else Running(st)
    case Jmp(r) => Running(st.(pc := st.pc + r))
    case MovRdiRax => Running(st.(rdi := st.rax))
    case MovEsi1 => Running(st.(rsi := 1))
    case MovEaxImm(n) => Running(st.(rax := n))
    case Syscall => SystemCall(k, st)
    case PushRbp => Push(st, st.rbp)
    case MovRbpRsp => Running(st.(rbp := st.rsp))
    case SubRspImm(n) => Running(st.(rsp := Wrap(st.rsp - n), flags := None))
  }

  function Step(c: seq<byte>, k: Kernel, st: State): Outcome {
    match Decode(c, st.pc)
    case None => Fault
    case Some((i, len)) => Perform(i, k, st.(pc := st.pc + len))
  }

  /** The outcome of at most `n` steps. */
  function Run(c: seq<byte>, k: Kernel, st: State, n: nat): Outcome
    decreases n
  {
    if n == 0 then Running(st)
    else
      match Step(c, k, st)
      case Running(st') => Run(c, k, st', n - 1)
      case o => o
  }

  lemma {:induction false} RunAdd(c: seq<byte>, k: Kernel, st: State, n: nat, m: nat)
    requires Run(c, k, st, n).Running?
    ensures Run(c, k, st, n + m) == Run(c, k, Run(c, k, st, n).st, m)
    decreases n
  {
    hide Step;
    if n > 0 {
      RunAdd(c, k, Step(c, k, st).st, n - 1, m);
    }
  }

  /** Chaining: the form of RunAdd that the simulation proofs use. */
  lemma RunTrans(c: seq<byte>, k: Kernel, st: State, n: nat, st': State, m: nat)
    requires Run(c, k, st, n) == Running(st')
    ensures Run(c, k, st, n + m) == Run(c, k, st', m)
  {
    RunAdd(c, k, st, n, m);
  }

  /** A machine that has stopped stays stopped. */
  lemma {:induction false} RunStops(c: seq<byte>, k: Kernel, st: State, n: nat, m: nat)
    requires !Run(c, k, st, n).Running? && n <= m
    ensures Run(c, k, st, m) == Run(c, k, st, n)
    decreases n
  {
    hide Step;
    var o := Step(c, k, st);
    if o.Running? && n > 0 {
      RunStops(c, k, o.st, n - 1, m - 1);
    }
  }

  lemma StepOutputGrows(c: seq<byte>, k: Kernel, st: State)
    ensures match Step(c, k, st)
            case Running(st') => st.out <= st'.out
            case Exited(out) => st.out <= out
            case Fault => true
  {
    hide Decode;
  }

  /** Output only grows. */
  lemma {:induction false} RunOutputGrows(c: seq<byte>, k: Kernel, st: State, n: nat)
    ensures match Run(c, k, st, n)
            case Running(st') => st.out <= st'.out
            case Exited(out) => st.out <= out
            case Fault => true
    decreases n
  {
    hide Step;
    if n > 0 {
      StepOutputGrows(c, k, st);
      match Step(c, k, st)
      case Running(st') => RunOutputGrows(c, k, st', n - 1);
      case _ =>
    }
  }

  // ----- Instruction lists laid out as bytes -----

  function Bytes(s: seq<Instr>): (bs: seq<byte>)
    ensures |bs| >= |s|
  {
    if s == [] then [] else Encode(s[0]) + Bytes(s[1..])
  }

  function Size(s: seq<Instr>): nat { |Bytes(s)| }

  lemma Assoc(x: seq<byte>, y: seq<byte>, z: seq<byte>)
    ensures x + (y + z) == (x + y) + z
  {
  }

  lemma {:induction false} BytesConcat(a: seq<Instr>, b: seq<Instr>)
    ensures Bytes(a + b) == Bytes(a) + Bytes(b)
    ensures Size(a + b) == Size(a) + Size(b)
  {
    hide Encode;
    if a == [] {
      assert a + b == b;
    } else {
      BytesConcat(a[1..], b);
      assert (a + b)[1..] == a[1..] + b;
      Assoc(Encode(a[0]), Bytes(a[1..]), Bytes(b));
    }
  }

  predicate AllEncodable(s: seq<Instr>) {
    forall i :: 0 <= i < |s| ==> Encodable(s[i])
  }

  /** `s` is laid out in `c` from `pc` on. */
  ghost predicate CodeAt(c: seq<byte>, pc: int, s: seq<Instr>) {
    BytesAt(c, pc, Bytes(s)) && AllEncodable(s)
  }

  lemma CodeSplit(c: seq<byte>, pc: int, a: seq<Instr>, b: seq<Instr>)
    requires CodeAt(c, pc, a + b)
    ensures CodeAt(c, pc, a) && CodeAt(c, pc + Size(a), b)
    ensures Size(a + b) == Size(a) + Size(b)
  {
    hide Bytes;
    BytesConcat(a, b);
    BytesAtSplit(c, pc, Bytes(a), Bytes(b));
    forall i | 0 <= i < |a| ensures Encodable(a[i]) { assert a[i] == (a + b)[i]; }
    forall i | 0 <= i < |b| ensures Encodable(b[i]) { assert b[i] == (a + b)[|a| + i]; }
  }

  lemma CodeHead(c: seq<byte>, pc: int, s: seq<Instr>)
    requires CodeAt(c, pc, s) && s != []
    ensures Decode(c, pc) == Some((s[0], |Encode(s[0])|))
    ensures CodeAt(c, pc + |Encode(s[0])|, s[1..])
  {
    BytesAtSplit(c, pc, Encode(s[0]), Bytes(s[1..]));
    DecodeEncode(c, pc, s[0]);
  }

  lemma StepAt(c: seq<byte>, k: Kernel, st: State, s: seq<Instr>)
    requires CodeAt(c, st.pc, s) && s != []
    ensures Step(c, k, st) == Perform(s[0], k, st.(pc := st.pc + |Encode(s[0])|))
    ensures CodeAt(c, st.pc + |Encode(s[0])|, s[1..])
  {
    hide CodeAt, Perform, Decode, Encode;
    CodeHead(c, st.pc, s);
  }
}
