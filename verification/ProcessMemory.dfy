/** The memory of a running process: the words that the machine reads and writes are those that the
    page tables give it, and running changes nothing else. */
module ProcessMemory {
  import opened Words
  import opened Machine
  import opened Frames
  import opened PageTables
  import opened Regions
  import opened Elf
  import opened Loader

  predicate StackWord(a: int) { LOAD_VADDR + PAGE <= a < TOP && a % 8 == 0 }

  /** The machine's memory is the stack that the page tables give the process. */
  ghost predicate Sees(m: State, mem: Memory, root: nat) {
    && (forall a :: a in m.mem <==> StackWord(a))
    && (forall a: nat :: StackWord(a) ==> UserWord(mem, root, a) == Some(m.mem[a]))
  }

  /** A frame behind a page of the stack. */
  ghost predicate StackFrame(mem: Memory, root: nat, f: nat) {
    exists va: nat :: ImagePage(va) && va != LOAD_VADDR && FrameAt(mem, root, va) == Some(f)
  }

  /** The process has run: no translation and no frame but those of its stack has changed. */
  ghost predicate OnlyStack(mem: Memory, mem': Memory, root: nat) {
    && (forall q :: IsPath(q) ==> Walk(mem', root, q) == Walk(mem, root, q))
    && (forall f: nat :: HasFrame(mem', f) <==> HasFrame(mem, f))
    && (forall f: nat :: !StackFrame(mem, root, f) ==> (f in mem' <==> f in mem) && (f in mem ==> mem'[f] == mem[f]))
  }

  /** An instruction stores at most one word, where there is memory. */
  lemma StepStores(c: seq<byte>, k: Kernel, st: State, st': State) returns (a: int, v: u64)
    requires Step(c, k, st) == Running(st')
    ensures st'.mem == st.mem || (a in st.mem && st'.mem == st.mem[a := v])
  {
    hide Perform, X86.Decode, Wrap;
    a, v := 0, 0;
    var (i, len) := X86.Decode(c, st.pc).value;
    PerformStores(i, k, st.(pc := st.pc + len));
    if i == X86.PushRax {
      a, v := Wrap(st.rsp - 8), st.rax;
    } else if i == X86.PushRbp {
      a, v := Wrap(st.rsp - 8), st.rbp;
    } else if i.StoreRax? {
      a, v := Wrap(st.rbp + i.disp), st.rax;
    }
  }

  lemma PerformStores(i: X86.Instr, k: Kernel, st: State)
    requires Perform(i, k, st).Running?
    ensures var st' := Perform(i, k, st).st;
            var a := if i.StoreRax? then Wrap(st.rbp + i.disp) else Wrap(st.rsp - 8);
            if i == X86.PushRax || i == X86.PushRbp || i.StoreRax?
            then a in st.mem && st'.mem == st.mem[a := if i == X86.PushRbp then st.rbp else st.rax]
            else st'.mem == st.mem
  {
  }

  // ----- One store -----

  /** Memory after user code has stored a word. */
  function StoreAt(mem: Memory, root: nat, a: nat, v: u64): Memory
    requires FrameAt(mem, root, a).Some? && HasFrame(mem, FrameAt(mem, root, a).value)
  {
    SetWord(mem, FrameAt(mem, root, a).value, a % FRAME / 8, v)
  }

  lemma PageOf(mem: Memory, root: nat, a: nat)
    ensures FrameAt(mem, root, a) == FrameAt(mem, root, a - a % FRAME)
    ensures LOAD_VADDR <= a < TOP ==> ImagePage(a - a % FRAME)
  {
    hide Walk, PathOf;
    SamePagePath(a, a - a % FRAME);
  }

  /** A frame that is no table can change without any walk noticing. */
  lemma {:induction false} WalkBeside(mem: Memory, root: nat, f: nat, i: nat, v: nat, q: seq<nat>)
    requires NoTableAt(mem, root, f) && HasFrame(mem, f) && i < WORDS_PER_FRAME && IsPath(q)
    ensures Walk(SetWord(mem, f, i, v), root, q) == Walk(mem, root, q)
    decreases |q|
  {
    hide Walk, Follow, SetWord, Word;
    var mem' := SetWord(mem, f, i, v);
    if q == [] {
      WalkEmpty(mem, root);
      WalkEmpty(mem', root);
    } else {
      var n := |q| - 1;
      WalkBeside(mem, root, f, i, v, q[..n]);
      WalkStep(mem, root, q);
      WalkStep(mem', root, q);
      assert IsPath(q[..n]);
    }
  }

  lemma StoreKeepsWalks(mem: Memory, root: nat, a: nat, v: u64)
    requires OwnPages(mem, root) && LOAD_VADDR <= a < TOP
    ensures FrameAt(mem, root, a).Some? && HasFrame(mem, FrameAt(mem, root, a).value)
    ensures forall q :: IsPath(q) ==> Walk(StoreAt(mem, root, a, v), root, q) == Walk(mem, root, q)
  {
    PageOf(mem, root, a);
    assert FrameAt(mem, root, a - a % FRAME).Some?;
    hide Walk, SetWord, NoTableAt;
    var f := FrameAt(mem, root, a).value;
    forall q | IsPath(q) ensures Walk(SetWord(mem, f, a % FRAME / 8, v), root, q) == Walk(mem, root, q) {
      WalkBeside(mem, root, f, a % FRAME / 8, v, q);
    }
  }

  /** A store through the page tables changes the word it names, and no other word that is seen. */
  lemma StoreSeen(mem: Memory, root: nat, a: nat, v: u64, b: nat)
    requires OwnPages(mem, root) && StackWord(a) && LOAD_VADDR <= b < TOP
    ensures FrameAt(mem, root, a).Some? && HasFrame(mem, FrameAt(mem, root, a).value)
    ensures StackWord(b) ==>
      UserWord(StoreAt(mem, root, a, v), root, b) == if b == a then Some(v) else UserWord(mem, root, b)
    ensures b < LOAD_VADDR + PAGE ==> UserByte(StoreAt(mem, root, a, v), root, b) == UserByte(mem, root, b)
  {
    StoreKeepsWalks(mem, root, a, v);
    PageOf(mem, root, a);
    PageOf(mem, root, b);
    assert FrameAt(mem, root, a) == FrameAt(mem, root, b) ==> a - a % FRAME == b - b % FRAME;
    hide Walk, PathOf, SetWord, OwnPages, ByteOf, Word;
    assert IsPath(PathOf(b));
    OffsetIs(a, b);
  }

  lemma OffsetIs(a: nat, b: nat)
    requires a % 8 == 0
    ensures a % FRAME / 8 < WORDS_PER_FRAME && b % FRAME / 8 < WORDS_PER_FRAME
    ensures a - a % FRAME == b - b % FRAME && b % 8 == 0 && a % FRAME / 8 == b % FRAME / 8 ==> a == b
    ensures StackWord(a) && LOAD_VADDR <= b < LOAD_VADDR + PAGE ==> a - a % FRAME != b - b % FRAME
  {
    WordOffset(a);
    if b % 8 == 0 { WordOffset(b); }
  }

  lemma WordOffset(a: nat)
    requires a % 8 == 0
    ensures a % FRAME == 8 * (a % FRAME / 8)
  {
    assert a == 8 * (a / 8) && a / FRAME == a / 8 / 512;
  }

  ghost predicate SameCode(mem: Memory, mem': Memory, root: nat) {
    forall va: nat :: LOAD_VADDR <= va < LOAD_VADDR + PAGE ==> UserByte(mem', root, va) == UserByte(mem, root, va)
  }

  /** Memory `mem'` is what became of `mem` while the process got to state `m`. */
  ghost predicate RanIn(m: State, mem: Memory, mem': Memory, root: nat) {
    OwnPages(mem', root) && Sees(m, mem', root) && OnlyStack(mem, mem', root) && SameCode(mem, mem', root)
  }

  lemma OwnPagesKept(mem: Memory, mem': Memory, root: nat)
    requires OwnPages(mem, root) && forall q :: IsPath(q) ==> Walk(mem', root, q) == Walk(mem, root, q)
    requires forall f: nat :: HasFrame(mem', f) <==> HasFrame(mem, f)
    ensures OwnPages(mem', root) && forall va: nat :: FrameAt(mem', root, va) == FrameAt(mem, root, va)
  {
    hide Walk, PathOf, HasFrame;
    forall va: nat ensures IsPath(PathOf(va)) {
    }
    forall f: nat ensures NoTableAt(mem', root, f) == NoTableAt(mem, root, f) {
    }
  }

  lemma StoreSees(m: State, mem: Memory, root: nat, a: nat, v: u64)
    requires OwnPages(mem, root) && Sees(m, mem, root) && StackWord(a)
    ensures FrameAt(mem, root, a).Some? && HasFrame(mem, FrameAt(mem, root, a).value)
    ensures Sees(m.(mem := m.mem[a := v]), StoreAt(mem, root, a, v), root)
    ensures SameCode(mem, StoreAt(mem, root, a, v), root)
  {
    hide OwnPages, UserWord, UserByte, StoreAt;
    StoreKeepsWalks(mem, root, a, v);
    forall b: nat | StackWord(b)
      ensures UserWord(StoreAt(mem, root, a, v), root, b) == if b == a then Some(v) else UserWord(mem, root, b)
    {
      StoreSeen(mem, root, a, v, b);
    }
    forall b: nat | LOAD_VADDR <= b < LOAD_VADDR + PAGE
      ensures UserByte(StoreAt(mem, root, a, v), root, b) == UserByte(mem, root, b)
    {
      StoreSeen(mem, root, a, v, b);
    }
  }

  lemma StoreInPlace(m: State, mem: Memory, root: nat, a: nat, v: u64)
    requires OwnPages(mem, root) && Sees(m, mem, root) && StackWord(a)
    ensures FrameAt(mem, root, a).Some? && HasFrame(mem, FrameAt(mem, root, a).value)
    ensures RanIn(m.(mem := m.mem[a := v]), mem, StoreAt(mem, root, a, v), root)
  {
    StoreSees(m, mem, root, a, v);
    StoreKeepsWalks(mem, root, a, v);
    hide OwnPages, Walk, Sees, SameCode, FrameAt;
    var mem' := StoreAt(mem, root, a, v);
    OwnPagesKept(mem, mem', root);
    PageOf(mem, root, a);
    assert StackFrame(mem, root, FrameAt(mem, root, a).value);
  }

  lemma NothingRan(m: State, mem: Memory, root: nat)
    requires OwnPages(mem, root) && Sees(m, mem, root)
    ensures RanIn(m, mem, mem, root)
  {
    hide OwnPages, Sees;
  }

  lemma SameFrame(mem: Memory, mem': Memory, root: nat, f: nat)
    requires forall q :: IsPath(q) ==> Walk(mem', root, q) == Walk(mem, root, q)
    ensures StackFrame(mem', root, f) == StackFrame(mem, root, f)
  {
    hide Walk, PathOf;
    forall va: nat ensures FrameAt(mem', root, va) == FrameAt(mem, root, va) {
      assert IsPath(PathOf(va));
    }
  }

  lemma RanOn(m: State, mem: Memory, mem1: Memory, mem2: Memory, root: nat, m1: State)
    requires RanIn(m1, mem, mem1, root) && RanIn(m, mem1, mem2, root)
    ensures RanIn(m, mem, mem2, root)
  {
    hide OwnPages, Sees, Walk, StackFrame, UserByte, HasFrame;
    forall f: nat ensures StackFrame(mem1, root, f) == StackFrame(mem, root, f) {
      SameFrame(mem, mem1, root, f);
    }
  }

  /** For every number of steps there is one memory that the process has made of its own: it shows the
      machine's words, all translations and the code are as before, and no frame but those behind the
      stack has changed. */
  lemma {:induction false} RunsInPlace(c: seq<byte>, k: Kernel, m: State, n: nat, m': State, mem: Memory, root: nat)
    returns (mem': Memory)
    requires OwnPages(mem, root) && Sees(m, mem, root) && Run(c, k, m, n) == Running(m')
    ensures RanIn(m', mem, mem', root)
    decreases n
  {
    hide OwnPages, Walk, Step, RanIn;
    mem' := mem;
    NothingRan(m, mem, root);
    if n > 0 {
      var m1 := Step(c, k, m).st;
      var a, v := StepStores(c, k, m, m1);
      if m1.mem != m.mem {
        StoreInPlace(m, mem, root, a, v);
        mem' := StoreAt(mem, root, a, v);
      }
      SeesMemory(m.(mem := m1.mem), m1, mem, mem', root);
      var mem1 := mem';
      mem' := RunsInPlace(c, k, m1, n - 1, m', mem1, root);
      RanOn(m', mem, mem1, mem', root, m1);
    }
  }

  /** Of the machine's state only the memory matters here. */
  lemma SeesMemory(m: State, m1: State, mem: Memory, mem': Memory, root: nat)
    requires RanIn(m, mem, mem', root) && m1.mem == m.mem
    ensures RanIn(m1, mem, mem', root) && OwnPages(mem', root) && Sees(m1, mem', root)
  {
    hide OwnPages, OnlyStack, SameCode;
  }
}
