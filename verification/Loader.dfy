/** The loader: a new process gets a copy of the current root table, the file in its first page and a
    stack behind it, all in fresh frames. What it then sees is read back through the page tables. */
module Loader {
  import opened Words
  import opened ErrorCodes
  import opened Frames
  import opened PageTables
  import opened PageMapping
  import opened Regions
  import opened SharedRoots
  import opened Layers
  import opened Compiler
  import opened Elf

  const STACK_PAGES := 16
  const TOP := LOAD_VADDR + PAGE + PAGE * STACK_PAGES

  // ----- Bytes in words -----

  function ByteOf(w: nat, j: nat): nat
    decreases j
  {
    if j == 0 then w % 256 else ByteOf(w / 256, j - 1)
  }

  /** The word `was` with its low `k` bytes replaced by those of `data` from `at` on. */
  function Merged(data: seq<byte>, at: nat, k: nat, was: nat): nat
    requires at + k <= |data|
    decreases k
  {
    if k == 0 then was else data[at] + 256 * Merged(data, at + 1, k - 1, was / 256)
  }

  lemma {:induction false} MergedByte(data: seq<byte>, at: nat, k: nat, was: nat, j: nat)
    requires at + k <= |data| && j < k
    ensures ByteOf(Merged(data, at, k, was), j) == data[at + j]
    decreases k
  {
    var rest := Merged(data, at + 1, k - 1, was / 256);
    assert (data[at] + 256 * rest) % 256 == data[at] && (data[at] + 256 * rest) / 256 == rest;
    if j > 0 { MergedByte(data, at + 1, k - 1, was / 256, j - 1); }
  }

  /** How many of the bytes of word `i` lie in `data`. */
  function Covered(data: seq<byte>, i: nat): (k: nat)
    ensures k <= 8 && (k > 0 ==> 8 * i + k <= |data|)
  {
    if 8 * i + 8 <= |data| then 8 else if 8 * i < |data| then |data| - 8 * i else 0
  }

  function CopiedWord(data: seq<byte>, i: nat, was: nat): nat {
    if Covered(data, i) == 0 then was else Merged(data, 8 * i, Covered(data, i), was)
  }

  lemma CopiedByte(data: seq<byte>, k: nat, was: nat)
    requires k < |data|
    ensures ByteOf(CopiedWord(data, k / 8, was), k % 8) == data[k]
  {
    MergedByte(data, 8 * (k / 8), Covered(data, k / 8), was, k % 8);
  }

  /** The frame begins with these bytes. */
  ghost predicate Contains(mem: Memory, f: nat, data: seq<byte>) {
    |data| <= PAGE && HasFrame(mem, f) && forall k :: 0 <= k < |data| ==> ByteOf(mem[f][k / 8], k % 8) == data[k]
  }

  /** The copy of a file into a frame, a word at a time. */
  method CopyToFrame(pool: FramePool, phys: nat, data: seq<byte>)
    requires pool.Valid() && HasFrame(pool.mem, phys) && phys !in pool.free && |data| <= PAGE
    modifies pool`mem
    ensures pool.Valid() && HasFrame(pool.mem, phys) && pool.mem == old(pool.mem)[phys := pool.mem[phys]]
    ensures pool.mem.Keys == old(pool.mem).Keys && Contains(pool.mem, phys, data)
  {
    hide FramePool.Valid, CopiedWord, ByteOf;
    var i := 0;
    while i < WORDS_PER_FRAME
      invariant 0 <= i <= WORDS_PER_FRAME && pool.Valid()
      invariant HasFrame(pool.mem, phys) && pool.mem == old(pool.mem)[phys := pool.mem[phys]]
      invariant forall j :: 0 <= j < i ==> pool.mem[phys][j] == CopiedWord(data, j, old(pool.mem)[phys][j])
      invariant forall j :: i <= j < WORDS_PER_FRAME ==> pool.mem[phys][j] == old(pool.mem)[phys][j]
    {
      ghost var mem1 := pool.mem;
      pool.Store(phys, i, CopiedWord(data, i, pool.mem[phys][i]));
      Stored(mem1, phys, i, CopiedWord(data, i, mem1[phys][i]));
      i := i + 1;
    }
    forall k | 0 <= k < |data| ensures ByteOf(pool.mem[phys][k / 8], k % 8) == data[k] {
      CopiedByte(data, k, old(pool.mem)[phys][k / 8]);
    }
  }

  lemma Stored(mem: Memory, f: nat, i: nat, v: nat)
    requires HasFrame(mem, f) && i < WORDS_PER_FRAME
    ensures var mem' := SetWord(mem, f, i, v);
            && mem' == mem[f := mem'[f]] && mem'[f][i] == v
            && forall j :: 0 <= j < WORDS_PER_FRAME && j != i ==> mem'[f][j] == mem[f][j]
  {
    var mem' := SetWord(mem, f, i, v);
    WordAt(mem', f, i);
    forall j | 0 <= j < WORDS_PER_FRAME && j != i ensures mem'[f][j] == mem[f][j] {
      WordAt(mem, f, j);
      WordAt(mem', f, j);
    }
  }

  // ----- What the process sees -----

  /** The byte that user code reads at `va`. */
  function UserByte(mem: Memory, root: nat, va: nat): Option<nat> {
    match Walk(mem, root, PathOf(va))
    case Page(f, _, true) => Some(ByteOf(Word(mem, f, va % FRAME / 8), va % 8))
    case _ => None
  }

  /** The word that user code can read and write at `va`. */
  function UserWord(mem: Memory, root: nat, va: nat): Option<nat> {
    match Walk(mem, root, PathOf(va))
    case Page(f, true, true) => Some(Word(mem, f, va % FRAME / 8))
    case _ => None
  }

  /** The frame behind a page that user code can read and write. */
  function FrameAt(mem: Memory, root: nat, va: nat): Option<nat> {
    match Walk(mem, root, PathOf(va))
    case Page(f, true, true) => Some(f)
    case _ => None
  }

  predicate ImagePage(va: nat) { va % FRAME == 0 && LOAD_VADDR <= va < TOP }

  ghost predicate NoTableAt(mem: Memory, root: nat, f: nat) {
    forall q :: IsPath(q) && |q| <= 3 && Walk(mem, root, q).Table? ==> Walk(mem, root, q).frame != f
  }

  /** Every page of the image has a frame of its own, which is not a table. */
  ghost predicate OwnPages(mem: Memory, root: nat) {
    && (forall va: nat :: ImagePage(va) ==>
          var f := FrameAt(mem, root, va);
          f.Some? && HasFrame(mem, f.value) && NoTableAt(mem, root, f.value))
    && (forall v: nat, w: nat :: ImagePage(v) && ImagePage(w) && FrameAt(mem, root, v) == FrameAt(mem, root, w) ==>
          v == w)
  }

  /** The file lies at the load address, and the whole stack can be used; its words are zero but for
      the first of each page. */
  ghost predicate ImageSeen(mem: Memory, root: nat, file: seq<byte>) {
    && (forall k :: 0 <= k < |file| ==> UserByte(mem, root, LOAD_VADDR + k) == Some(file[k] as int))
    && (forall a: nat :: LOAD_VADDR + PAGE <= a < TOP && a % 8 == 0 ==>
          UserWord(mem, root, a).Some? && (a % PAGE != 0 ==> UserWord(mem, root, a) == Some(0)))
  }

  /** The image is seen, on pages of its own. */
  ghost predicate Ready(mem: Memory, root: nat, file: seq<byte>) {
    OwnPages(mem, root) && ImageSeen(mem, root, file)
  }

  lemma FileInPlace(mem: Memory, root: nat, f: nat, file: seq<byte>, k: nat)
    requires k < |file| && Contains(mem, f, file) && Walk(mem, root, PathOf(LOAD_VADDR)) == Page(f, true, true)
    ensures UserByte(mem, root, LOAD_VADDR + k) == Some(file[k] as int)
  {
    hide Walk, PathOf, ByteOf;
    var va := LOAD_VADDR + k;
    assert va % FRAME == k && va % 8 == k % 8 && va / FRAME == LOAD_VADDR / FRAME;
    SamePagePath(va, LOAD_VADDR);
    WordAt(mem, f, k / 8);
  }

  lemma StackInPlace(mem: Memory, root: nat, f: nat, va: nat, a: nat)
    requires va % FRAME == 0 && va <= a < va + FRAME && a % 8 == 0
    requires ZeroBehind(mem, f) && Walk(mem, root, PathOf(va)) == Page(f, true, true)
    ensures UserWord(mem, root, a).Some? && (a % PAGE != 0 ==> UserWord(mem, root, a) == Some(0))
  {
    hide Walk, PathOf;
    assert a / FRAME == va / FRAME;
    SamePagePath(a, va);
    WordAt(mem, f, a % FRAME / 8);
  }

  lemma PagesOwned(b: Moment, r: Region)
    requires InOrder(b, r) && Owned(b) && r.lo == LOAD_VADDR && r.hi == TOP
    requires forall f: nat :: f in b.held ==> HasFrame(b.mem, f)
    ensures OwnPages(b.mem, r.root)
  {
    hide Walk, PathOf, Tree, Granted, WritableLayer, Unshared;
    forall va: nat | ImagePage(va)
      ensures va in r.backing && FrameAt(b.mem, r.root, va) == Some(r.backing[va])
      ensures HasFrame(b.mem, r.backing[va]) && NoTableAt(b.mem, r.root, r.backing[va])
    {
      assert r.backing[va] in b.tracked[r.pid] && r.backing[va] !in r.tables;
    }
  }

  /** Both parts, once all pages are mapped. */
  lemma AllInPlace(b: Moment, r: Region, part: map<nat, nat>, file: seq<byte>)
    requires InOrder(b, r) && r.lo == LOAD_VADDR && r.hi == TOP && |file| <= PAGE
    requires Pages(part, LOAD_VADDR, LOAD_VADDR + PAGE) && FreshPages(b.mem, part, r.backing)
    requires LOAD_VADDR in r.backing && Contains(b.mem, r.backing[LOAD_VADDR], file)
    ensures ImageSeen(b.mem, r.root, file)
  {
    hide Walk, PathOf, Contains, Tree, Covers, Granted, NoTables, WritableLayer, UserByte, UserWord, ZeroBehind;
    forall k | 0 <= k < |file| ensures UserByte(b.mem, r.root, LOAD_VADDR + k) == Some(file[k] as int) {
      FileInPlace(b.mem, r.root, r.backing[LOAD_VADDR], file, k);
    }
    forall a: nat | LOAD_VADDR + PAGE <= a < TOP && a % 8 == 0
      ensures UserWord(b.mem, r.root, a).Some? && (a % PAGE != 0 ==> UserWord(b.mem, r.root, a) == Some(0))
    {
      var va := a - a % FRAME;
      assert va in r.backing && va !in part;
      StackInPlace(b.mem, r.root, r.backing[va], va, a);
    }
  }

  // ----- Loading -----

  /** The file's page is mapped and holds the file. */
  ghost predicate FileMapped(b0: Moment, b: Moment, r0: Region, r: Region, file: seq<byte>) {
    && Progress(b0, b, r0, r) && r.hi == LOAD_VADDR + PAGE
    && LOAD_VADDR in r.backing && r.backing[LOAD_VADDR] in b.tracked[r.pid]
    && Contains(b.mem, r.backing[LOAD_VADDR], file)
  }

  /** One page of a segment: a fresh frame is mapped, then the file's bytes are copied over it. */
  method LoadPage(mm: MemoryManager, slot: nat, dst: nat, file: seq<byte>, ghost r0: Region)
    returns (ok: bool, ghost r: Region)
    requires mm.Valid() && InOrder(mm.Now(), r0) && r0.pid == slot && r0.root == Addr(dst) && |file| <= PAGE
    requires r0.lo == r0.hi == LOAD_VADDR && r0.top == TOP
    modifies mm`tracked, mm.pool, mm.pcbs
    ensures mm.Valid() && mm.pool.mem.Keys == old(mm.pool.mem).Keys
    ensures ok ==> FileMapped(old(mm.Now()), mm.Now(), r0, r, file)
    ensures !ok ==> GaveUp(old(mm.Now()), mm.Now(), r0, r.tables, TOP)
  {
    hide Addr, InOrder, Stepped, Progress, GaveUp, FramePool.Valid, Owned, Contains;
    ghost var b0 := mm.Now();
    mm.StartProgress(r0);
    var phys;
    ok, phys, r := mm.MapFresh(slot, dst, LOAD_VADDR, r0);
    ghost var b1 := mm.Now();
    if !ok {
      ProgressFails(b0, b0, b1, r0, r0, r, TOP);
      return;
    }
    ProgressStep(b0, b0, b1, r0, r0, r);
    SteppedFacts(b0, b1, r0, r, true);
    NewFrame(b0, b1, r0, r, phys);
    mm.pool.PoolFacts();
    CopyToFrame(mm.pool, phys, file);
    OwnedStill(b1, mm.Now());
    ContentsFree(b0, b1, mm.Now(), r0, r, phys);
  }

  lemma OwnedStill(b1: Moment, b2: Moment)
    requires Owned(b1) && b2 == b1.(mem := b2.mem)
    ensures Owned(b2)
  {
  }

  lemma NewFrame(b0: Moment, b1: Moment, r0: Region, r: Region, f: nat)
    requires Stepped(b0, b1, r0, r, true) && Owned(b1) && f in b1.tracked[r0.pid] && r0.hi in r.backing
    requires f == r.backing[r0.hi]
    ensures f !in b0.held && f in b1.held && f !in r.tables && r0.pid == r.pid && b0.base == b1.base && b0.end == b1.end
  {
    hide Walk, PathOf, Tree, Covers, Granted, Obstructed, Missing, WritableLayer, Mapping, Unshared, LinkedIn;
  }

  /** Second pass: the pages of the segments. */
  method LoadSegments(mm: MemoryManager, slot: nat, dst: nat, file: seq<byte>, phoff: int, phnum: int, phentsize: int,
                      ghost r0: Region)
    returns (ok: bool, ghost r: Region)
    requires phnum == 1 && SegmentAt(file, phoff) == Segment(1, 7, 0, LOAD_VADDR, |file|, |file|) && 0 < |file| <= PAGE
    requires mm.Valid() && InOrder(mm.Now(), r0) && r0.pid == slot && r0.root == Addr(dst)
    requires r0.lo == r0.hi == LOAD_VADDR && r0.top == TOP
    modifies mm`tracked, mm.pool, mm.pcbs
    ensures mm.Valid() && mm.pool.mem.Keys == old(mm.pool.mem).Keys
    ensures ok ==> FileMapped(old(mm.Now()), mm.Now(), r0, r, file)
    ensures !ok ==> GaveUp(old(mm.Now()), mm.Now(), r0, r.tables, TOP)
  {
    hide Addr, InOrder, GaveUp, FramePool.Valid, Owned, FileMapped, SegmentAt;
    ghost var b0 := mm.Now();
    r := r0;
    var i := 0;
    while i < phnum
      invariant 0 <= i <= phnum && mm.Valid() && mm.pool.mem.Keys == b0.mem.Keys
      invariant if i == 0 then mm.Now() == b0 else FileMapped(b0, mm.Now(), r0, r, file)
    {
      var ph := SegmentAt(file, phoff + i * phentsize);
      if ph.kind == 1 {
        var writable := ph.flags / 2 % 2 == 1;
        assert writable;
        var va, pageEnd := ph.vaddr / PAGE * PAGE, (ph.vaddr + ph.memsz + PAGE - 1) / PAGE * PAGE;
        while va < pageEnd
          invariant (va == LOAD_VADDR || va == pageEnd) && pageEnd == LOAD_VADDR + PAGE
          invariant mm.Valid() && mm.pool.mem.Keys == b0.mem.Keys
          invariant if va == LOAD_VADDR then mm.Now() == b0 else FileMapped(b0, mm.Now(), r0, r, file)
        {
          var inPage := va - ph.vaddr;
          var avail := if ph.filesz > inPage then ph.filesz - inPage else 0;
          var count := if avail < PAGE then avail else PAGE;
          var data := file[ph.offset + inPage..ph.offset + inPage + count];
          assert data == file;
          ok, r := LoadPage(mm, slot, dst, data, r0);
          if !ok { return; }
          va := va + PAGE;
        }
      }
      i := i + 1;
    }
    ok := true;
  }

  // ----- The new process -----

  lemma ForgetOwned(b: Moment, b': Moment, slot: nat)
    requires Owned(b) && slot < |b.tracked| && b' == b.(pcbs := b'.pcbs, tracked := b.tracked[slot := []])
    requires |b'.pcbs| == |b.pcbs|
    ensures Owned(b')
  {
  }

  /** Walks below the two roots agree, so a range needs as many frames in one as in the other. */
  lemma {:induction false} NeededCloned(mem: Memory, mem': Memory, src: nat, dst: nat, start: nat, end: nat)
    requires forall q :: IsPath(q) && q != [] ==> Walk(mem', dst, q) == Walk(mem, src, q)
    ensures FramesNeeded(mem', dst, start, end) == FramesNeeded(mem, src, start, end)
    decreases end
  {
    hide Walk, PathOf, NewTables;
    if end >= start + FRAME {
      NeededCloned(mem, mem', src, dst, start, end - FRAME);
      NewCloned(mem, mem', src, dst, start, end - FRAME, 3);
    }
  }

  lemma {:induction false} NewCloned(mem: Memory, mem': Memory, src: nat, dst: nat, start: nat, va: nat, n: nat)
    requires n <= 3 && forall q :: IsPath(q) && q != [] ==> Walk(mem', dst, q) == Walk(mem, src, q)
    ensures NewTables(mem', dst, start, va, n) == NewTables(mem, src, start, va, n)
    decreases n
  {
    hide Walk, PathOf, Shared;
    if n > 0 {
      NewCloned(mem, mem', src, dst, start, va, n - 1);
      assert IsPath(PathOf(va)[..n]) && PathOf(va)[..n] != [];
    }
  }

  lemma ClearCloned(mem: Memory, mem': Memory, src: nat, dst: nat, start: nat, end: nat)
    requires forall q :: IsPath(q) ==> Obstructed(mem', dst, q) == Obstructed(mem, src, q)
    ensures ClearRange(mem', dst, start, end) == ClearRange(mem, src, start, end)
  {
    hide Obstructed, PathOf;
    forall va: nat ensures Obstructed(mem', dst, PathOf(va)[..3]) == Obstructed(mem, src, PathOf(va)[..3]) {
      assert IsPath(PathOf(va)[..3]);
    }
  }

  /** The root of the new process is outside the pool, so nobody tracks it. */
  lemma RootUntracked(b: Moment, tables: set<nat>, src: nat, dst: nat)
    requires Owned(b) && NoTables(b.tracked, tables) && !Within(b.base, b.end, dst)
    requires forall f: nat :: f in b.held ==> Within(b.base, b.end, f)
    ensures NoTables(b.tracked, tables - {src} + {dst})
  {
  }

  /** The file stays where it was copied while the stack is mapped. */
  lemma FileStays(b0: Moment, b1: Moment, b2: Moment, r0: Region, r1: Region, r2: Region, file: seq<byte>)
    requires FileMapped(b0, b1, r0, r1, file) && Owned(b1) && Kept(b1, b2, r1.pid, r1.tables, r2.tables)
    requires Extends(r1.backing, r2.backing, r1.hi, b1.held)
    ensures LOAD_VADDR in r2.backing && Contains(b2.mem, r2.backing[LOAD_VADDR], file)
  {
    hide Progress, Unshared, ByteOf, InOrder;
    ProgressFacts(b0, b1, r0, r1);
    TrackedApart(b1, r1);
    assert r1.backing[LOAD_VADDR] in b1.held && r1.backing[LOAD_VADDR] !in r1.tables;
  }

  /** A provisioned process: each page of its image is translated, user-writable, to a frame of its own,
      which is held but on no list, least of all on its own; its tables exist, are on no list either and
      withhold nothing. */
  ghost predicate Provisioned(b: Moment, r: Region) {
    && r.pid < |b.tracked| && b.tracked[r.pid] == [] && NoTables(b.tracked, r.tables)
    && Pages(r.backing, LOAD_VADDR, TOP) && WritableLayer(b.mem, r.root, LOAD_VADDR, TOP)
    && TablesFor(b.mem, r.root, LOAD_VADDR, TOP)
    && (forall va: nat :: va in r.backing ==>
          && Walk(b.mem, r.root, PathOf(va)) == Page(r.backing[va], true, true)
          && r.backing[va] in b.held && Untracked(b.tracked, r.backing[va]))
    && (forall v: nat, w: nat :: v in r.backing && w in r.backing && r.backing[v] == r.backing[w] ==> v == w)
  }

  lemma FramesForgotten(b: Moment, b': Moment, r: Region)
    requires InOrder(b, r) && Owned(b) && r.lo == LOAD_VADDR && r.hi == r.top == TOP
    requires TablesFor(b.mem, r.root, LOAD_VADDR, TOP)
    requires b' == b.(pcbs := b'.pcbs, tracked := b.tracked[r.pid := []])
    ensures Provisioned(b', r)
  {
    hide Walk, PathOf, Tree, Covers, Granted, WritableLayer;
    forall va: nat | va in r.backing ensures r.backing[va] in b.held && Untracked(b'.tracked, r.backing[va]) {
      assert r.backing[va] in b.tracked[r.pid];
    }
  }

  /** Besides the copied root there are no tables but old ones and frames of the pool. */
  ghost predicate NewTablesOnly(b: Moment, tables: set<nat>, dst: nat, tables': set<nat>) {
    forall t: nat :: t in tables' ==> t in tables || t == dst || Within(b.base, b.end, t)
  }

  /** Of the memory in use, loading touches tables only. */
  lemma OnlyTablesTouched(b: Moment, b0: Moment, b1: Moment, b1': Moment, pid: nat, tables: set<nat>, src: nat,
                          dst: nat, tables': set<nat>)
    requires SameFrames(b, b0, {dst}) && b0.held == b.held && b0.base == b.base && b0.end == b.end
    requires Kept(b0, b1, pid, tables - {src} + {dst}, tables') && b1' == b1.(pcbs := b1'.pcbs, tracked := b1'.tracked)
    requires forall f: nat :: f in b1.held ==> Within(b1.base, b1.end, f)
    ensures SameFrames(b, b1', tables') && NewTablesOnly(b1', tables, dst, tables')
    ensures b1'.base == b.base && b1'.end == b.end
  {
  }

  /** Every page that was mapped has its tables. */
  lemma TablesThere(b0: Moment, b: Moment, r0: Region, r: Region)
    requires Progress(b0, b, r0, r)
    ensures TablesFor(b.mem, r.root, r0.hi, r.hi)
  {
    hide Walk, PathOf, InOrder, Kept, SameOutlook, SameOutside, ClearRange, FramesNeeded, Pages, Extends;
    forall va: nat | r0.hi <= va < r.hi ensures Walk(b.mem, r.root, PathOf(va)[..3]).Table? {
      assert PathOf(va)[..3] <= PathOf(va) && IsPath(PathOf(va)[..3]);
    }
  }

  // ----- What the caller sees -----

  /** The caller's root is none of the tables that loading changes, and shares those it has. */
  ghost predicate CallerOf(mem: Memory, b: Moment, r: Region, src: nat) {
    && src in b.mem && src !in r.tables && (Within(b.base, b.end, src) ==> src in b.held)
    && SharesAll(b.mem, src, r.root)
    && forall q :: IsPath(q) ==> Walk(b.mem, src, q) == Walk(mem, src, q)
  }

  lemma CallerApart(mem: Memory, b0: Moment, b: Moment, r0: Region, tables: set<nat>, src: nat)
    requires CallerOf(mem, b0, r0, src) && Kept(b0, b, r0.pid, r0.tables, tables)
    requires forall f: nat :: f in b.held ==> Within(b.base, b.end, f)
    ensures src in b.mem && b.mem[src] == b0.mem[src]
  {
    hide Walk, SharesAll;
  }

  /** Loading changes no page of the caller outside the range, whatever happens. */
  lemma CallerKeeps(mem: Memory, b0: Moment, b: Moment, r0: Region, tables: set<nat>, src: nat)
    requires CallerOf(mem, b0, r0, src) && GaveUp(b0, b, r0, tables, TOP) && r0.hi == LOAD_VADDR
    requires forall f: nat :: f in b.held ==> Within(b.base, b.end, f)
    ensures SameOutside(mem, b.mem, src, LOAD_VADDR, TOP)
  {
    hide Walk, PathOf, SharesAll, Kept, InOrder, ClearRange, FramesNeeded, TablesRemain, SameOutside;
    CallerApart(mem, b0, b, r0, tables, src);
    PagesAppear(b0.mem, b.mem, r0.root, src, LOAD_VADDR, TOP, map[]);
    AppearOn(mem, b0.mem, b.mem, src, LOAD_VADDR, TOP, map[]);
  }

  /** The image appears in the caller's own range as well, exactly if its root has an entry there. */
  lemma CallerSees(mem: Memory, b0: Moment, b: Moment, r0: Region, r: Region, src: nat)
    requires CallerOf(mem, b0, r0, src) && Progress(b0, b, r0, r) && r0.hi == LOAD_VADDR && r.hi == TOP
    requires forall f: nat :: f in b.held ==> Within(b.base, b.end, f)
    ensures Appear(mem, b.mem, src, LOAD_VADDR, TOP, r.backing) && SameOutside(mem, b.mem, src, LOAD_VADDR, TOP)
  {
    hide Walk, PathOf, SharesAll, Kept, ClearRange, FramesNeeded, TablesRemain, SameOutside, OpenedFor, Extends, Pages;
    hide Tree, Covers, NoTables, WritableLayer;
    CallerApart(mem, b0, b, r0, r.tables, src);
    PagesAppear(b0.mem, b.mem, r0.root, src, LOAD_VADDR, TOP, r.backing);
    AppearOn(mem, b0.mem, b.mem, src, LOAD_VADDR, TOP, r.backing);
  }

  /** The region of a process about to be loaded. */
  function ImageRegion(slot: nat, root: nat, tables: set<nat>): Region {
    Region(slot, root, LOAD_VADDR, LOAD_VADDR, TOP, tables, map[])
  }

  /** The slot's page table becomes a copy of the current one, and its list of frames is empty. */
  method Prepare(mm: MemoryManager, slot: nat, src: nat, dst: nat, ghost tables: set<nat>)
    requires mm.Valid() && slot < mm.pcbs.Length && Safe(mm.pool, src, tables) && NoTables(mm.tracked, tables)
    requires HasFrame(mm.pool.mem, dst) && dst !in tables && !mm.pool.InPool(dst)
    requires WritableLayer(mm.pool.mem, src, LOAD_VADDR, TOP)
    modifies mm`tracked, mm.pool`mem, mm.pcbs
    ensures mm.Valid() && InOrder(mm.Now(), ImageRegion(slot, dst, tables - {src} + {dst}))
    ensures SameFrames(old(mm.Now()), mm.Now(), {dst})
    ensures mm.pool.held == old(mm.pool.held) && mm.pool.Available() == old(mm.pool.Available())
    ensures ClearRange(mm.pool.mem, dst, LOAD_VADDR, TOP) == ClearRange(old(mm.pool.mem), src, LOAD_VADDR, TOP)
    ensures FramesNeeded(mm.pool.mem, dst, LOAD_VADDR, TOP) == FramesNeeded(old(mm.pool.mem), src, LOAD_VADDR, TOP)
    ensures forall q :: IsPath(q) && q != [] ==> Walk(mm.pool.mem, dst, q) == Walk(old(mm.pool.mem), src, q)
    ensures CallerOf(old(mm.pool.mem), mm.Now(), ImageRegion(slot, dst, tables - {src} + {dst}), src)
  {
    hide Walk, PathOf, Tree, Covers, Granted, Obstructed, FramePool.Valid, WritableLayer, ClearRange, FramesNeeded;
    hide SharesAll, InOrder;
    hide AllHeld, Unshared;
    ghost var b := mm.Now();
    mm.pool.PoolFacts();
    RootUntracked(b, tables, src, dst);
    WalkEmpty(b.mem, src);
    TableKnown(b.mem, src, [], tables);
    ClonePml4(mm.pool, src, dst, tables);
    CloneShares(b.mem, mm.pool.mem, src, dst);
    ghost var b1 := mm.Now();
    OwnedStill(b, b1);
    mm.pcbs[slot] := mm.pcbs[slot].(framesHead := 0);
    mm.tracked := mm.tracked[slot := []];
    ForgetOwned(b1, mm.Now(), slot);
    LayerCloned(b.mem, mm.pool.mem, src, dst, LOAD_VADDR, TOP);
    NeededCloned(b.mem, mm.pool.mem, src, dst, LOAD_VADDR, TOP);
    ClearCloned(b.mem, mm.pool.mem, src, dst, LOAD_VADDR, TOP);
    FreshRegion(mm.Now(), ImageRegion(slot, dst, tables - {src} + {dst}));
  }

  /** The loader on a compiled file. It succeeds iff there is a free slot, no large page is in the way
      and there are frames for 17 pages and their tables. The process then sees the file at the load
      address and a stack of 64 KiB; its control block has lost the list of its frames. */
  method Exec(mm: MemoryManager, file: seq<byte>, slot: Option<nat>, src: nat, dst: nat, ghost tables: set<nat>)
    returns (r: int, entry: nat, stackTop: nat, ghost region: Region)
    requires BarrelFile(file) && mm.Valid() && (slot.Some? ==> slot.value < mm.pcbs.Length)
    requires Safe(mm.pool, src, tables) && NoTables(mm.tracked, tables)
    requires WritableLayer(mm.pool.mem, src, LOAD_VADDR, TOP)
    requires HasFrame(mm.pool.mem, dst) && dst !in tables && !mm.pool.InPool(dst) && Addr(dst) == dst
    modifies mm`tracked, mm.pool, mm.pcbs
    ensures mm.Valid() && mm.pool.base == old(mm.pool.base) && mm.pool.end == old(mm.pool.end)
    ensures SameFrames(old(mm.Now()), mm.Now(), region.tables)
    ensures r >= 0 <==>
      && slot.Some? && ClearRange(old(mm.pool.mem), src, LOAD_VADDR, TOP)
      && FramesNeeded(old(mm.pool.mem), src, LOAD_VADDR, TOP) <= old(mm.pool.Available())
    ensures r < 0 ==> r == if slot.None? then ERR_NO_CAPACITY else ERR_OUT_OF_MEMORY
    ensures SameOutside(old(mm.pool.mem), mm.pool.mem, src, LOAD_VADDR, TOP)
    ensures r >= 0 ==> Appear(old(mm.pool.mem), mm.pool.mem, src, LOAD_VADDR, TOP, region.backing)
    ensures r >= 0 ==>
      && slot == Some(r) && mm.pcbs[r] == Pcb(true, dst, LOAD_VADDR, PAGE, LOAD_VADDR, 0)
      && entry == LOAD_VADDR + CODE_OFF && stackTop == TOP
      && region.pid == r && region.root == dst && Provisioned(mm.Now(), region)
      && NewTablesOnly(mm.Now(), tables, dst, region.tables)
      && (forall va: nat :: va in region.backing ==> region.backing[va] !in old(mm.pool.held))
      && Ready(mm.pool.mem, dst, file) && Safe(mm.pool, dst, region.tables)
      && mm.pool.Available() + FramesNeeded(old(mm.pool.mem), src, LOAD_VADDR, TOP) == old(mm.pool.Available())
  {
    hide SegmentAt, BarrelFile, Walk, PathOf, Addr, InOrder, Progress, GaveUp, FileMapped, Kept, LinksKept;
    hide MemoryManager.Valid, FramePool.Available, WritableLayer, ClearRange, FramesNeeded, Ready, Safe, Provisioned;
    hide Appear, NewTablesOnly;
    r, entry, stackTop, region := ERR_INVALID_POINTER, 0, 0, ImageRegion(0, dst, tables);
    var header := ReadHeader(file);
    if header.None? { return; }
    var phoff, phnum, phentsize := header.value.phoff, header.value.phnum, header.value.phentsize;
    entry := header.value.entry;
    var range := FindRange(file, phoff, phnum, phentsize);
    if range.None? { return; }
    var loadBase, loadEnd := range.value.0, range.value.1;
    if slot.None? { r := ERR_NO_CAPACITY; return; }
    var ok;
    ok, stackTop, region := Load(mm, file, slot.value, src, dst, phoff, phnum, phentsize, loadBase, loadEnd, tables);
    r := if ok then slot.value else ERR_OUT_OF_MEMORY;
  }

  /** The part of `exec` behind its checks. */
  method Load(mm: MemoryManager, file: seq<byte>, slot: nat, src: nat, dst: nat,
              phoff: int, phnum: int, phentsize: int, loadBase: nat, loadEnd: nat, ghost tables: set<nat>)
    returns (ok: bool, stackTop: nat, ghost region: Region)
    requires phnum == 1 && SegmentAt(file, phoff) == Segment(1, 7, 0, LOAD_VADDR, |file|, |file|) && 0 < |file| <= PAGE
    requires mm.Valid() && slot < mm.pcbs.Length && loadBase == LOAD_VADDR && loadEnd == LOAD_VADDR + PAGE
    requires Safe(mm.pool, src, tables) && NoTables(mm.tracked, tables)
    requires WritableLayer(mm.pool.mem, src, LOAD_VADDR, TOP)
    requires HasFrame(mm.pool.mem, dst) && dst !in tables && !mm.pool.InPool(dst) && Addr(dst) == dst
    modifies mm`tracked, mm.pool, mm.pcbs
    ensures mm.Valid() && mm.pool.base == old(mm.pool.base) && mm.pool.end == old(mm.pool.end)
    ensures SameFrames(old(mm.Now()), mm.Now(), region.tables)
    ensures ok <==>
      && ClearRange(old(mm.pool.mem), src, LOAD_VADDR, TOP)
      && FramesNeeded(old(mm.pool.mem), src, LOAD_VADDR, TOP) <= old(mm.pool.Available())
    ensures SameOutside(old(mm.pool.mem), mm.pool.mem, src, LOAD_VADDR, TOP)
    ensures ok ==> Appear(old(mm.pool.mem), mm.pool.mem, src, LOAD_VADDR, TOP, region.backing)
    ensures ok ==>
      && mm.pcbs[slot] == Pcb(true, dst, LOAD_VADDR, PAGE, LOAD_VADDR, 0) && stackTop == TOP
      && region.pid == slot && region.root == dst && Provisioned(mm.Now(), region)
      && NewTablesOnly(mm.Now(), tables, dst, region.tables)
      && (forall va: nat :: va in region.backing ==> region.backing[va] !in old(mm.pool.held))
      && Ready(mm.pool.mem, dst, file) && Safe(mm.pool, dst, region.tables)
      && mm.pool.Available() + FramesNeeded(old(mm.pool.mem), src, LOAD_VADDR, TOP) == old(mm.pool.Available())
  {
    hide SegmentAt, Walk, PathOf, Addr, InOrder, Progress, GaveUp, FileMapped, Kept, LinksKept, Provisioned;
    hide FramePool.Valid, FramePool.Available, Tree, Covers, WritableLayer, ClearRange, FramesNeeded, Owned, Ready;
    hide FreshPages, Extends, Safe, CallerOf, Appear, SameOutside, NewTablesOnly, SameFrames, TablesFor;
    ghost var was := mm.Now();
    Prepare(mm, slot, src, dst, tables);
    ghost var b0, r0 := mm.Now(), ImageRegion(slot, dst, tables - {src} + {dst});
    ghost var r1, r2;
    stackTop := loadEnd + PAGE * STACK_PAGES;
    ok, r1 := LoadSegments(mm, slot, dst, file, phoff, phnum, phentsize, r0);
    region := r1;
    if !ok {
      mm.pool.PoolFacts();
      GaveUpWhy(b0, mm.Now(), r0, r1.tables);
      CallerKeeps(was.mem, b0, mm.Now(), r0, r1.tables, src);
      OnlyTablesTouched(was, b0, mm.Now(), mm.Now(), slot, tables, src, dst, r1.tables);
      return;
    }
    ghost var b1 := mm.Now();
    FileMappedFacts(b0, b1, r0, r1, file);
    ok, r2 := mm.MapRange(slot, dst, loadEnd, stackTop, b0, r0, r1);
    region := r2;
    mm.pool.PoolFacts();
    if !ok {
      GaveUpWhy(b0, mm.Now(), r0, r2.tables);
      CallerKeeps(was.mem, b0, mm.Now(), r0, r2.tables, src);
      OnlyTablesTouched(was, b0, mm.Now(), mm.Now(), slot, tables, src, dst, r2.tables);
      return;
    }
    ghost var b2 := mm.Now();
    CallerSees(was.mem, b0, b2, r0, r2, src);
    LoadedFacts(b0, b1, b2, r0, r1, r2, file);
    mm.pcbs[slot] := Pcb(true, dst, loadBase, loadEnd - loadBase, loadBase, 0);
    mm.tracked := mm.tracked[slot := []];
    ForgetOwned(b2, mm.Now(), slot);
    SafeAgain(mm, b2, r2);
    FramesForgotten(b2, mm.Now(), r2);
    OnlyTablesTouched(was, b0, b2, mm.Now(), slot, tables, src, dst, r2.tables);
  }

  lemma GaveUpWhy(b0: Moment, b: Moment, r0: Region, tables: set<nat>)
    requires GaveUp(b0, b, r0, tables, TOP) && r0.hi == LOAD_VADDR
    ensures !(ClearRange(b0.mem, r0.root, LOAD_VADDR, TOP) &&
      FramesNeeded(b0.mem, r0.root, LOAD_VADDR, TOP) <= b0.available)
    ensures Kept(b0, b, r0.pid, r0.tables, tables)
  {
    hide ClearRange, FramesNeeded, InOrder, Kept;
  }

  lemma FileMappedFacts(b0: Moment, b: Moment, r0: Region, r: Region, file: seq<byte>)
    requires FileMapped(b0, b, r0, r, file)
    ensures Progress(b0, b, r0, r) && r.hi == LOAD_VADDR + PAGE && r.pid == r0.pid && r.root == r0.root
    ensures r.top == r0.top
  {
    hide Progress;
    ProgressFacts(b0, b, r0, r);
  }

  lemma LoadedFacts(b0: Moment, b1: Moment, b2: Moment, r0: Region, r1: Region, r2: Region, file: seq<byte>)
    requires FileMapped(b0, b1, r0, r1, file) && Owned(b1) && Owned(b2) && Kept(b1, b2, r1.pid, r1.tables, r2.tables)
    requires Extends(r1.backing, r2.backing, r1.hi, b1.held) && FreshPages(b2.mem, r1.backing, r2.backing)
    requires Progress(b0, b2, r0, r2) && r0 == ImageRegion(r0.pid, r0.root, r0.tables) && r2.hi == TOP && |file| <= PAGE
    requires forall f: nat :: f in b2.held ==> HasFrame(b2.mem, f)
    ensures InOrder(b2, r2) && r2 == r0.(hi := TOP, tables := r2.tables, backing := r2.backing)
    ensures Ready(b2.mem, r0.root, file) && r2.pid < |b2.tracked|
    ensures ClearRange(b0.mem, r0.root, LOAD_VADDR, TOP)
    ensures b2.available + FramesNeeded(b0.mem, r0.root, LOAD_VADDR, TOP) == b0.available
    ensures TablesFor(b2.mem, r2.root, LOAD_VADDR, TOP)
    ensures forall va: nat :: va in r2.backing ==> r2.backing[va] !in b0.held
    ensures Kept(b0, b2, r0.pid, r0.tables, r2.tables)
  {
    hide Progress, InOrder, Kept, Owned, Extends, FreshPages, ImageSeen, OwnPages, Contains, ClearRange, FramesNeeded;
    hide Walk, PathOf, TablesFor;
    AllMapped(b0, b2, r0, r2);
    TablesThere(b0, b2, r0, r2);
    ProgressFacts(b0, b2, r0, r2);
    ProgressFacts(b0, b1, r0, r1);
    AlignedIn(b1, r1);
    AlignedIn(b2, r2);
    PidIn(b2, r2);
    FileStays(b0, b1, b2, r0, r1, r2, file);
    SameLo(b0, b1, b2, r0, r1, r2);
    PagesOwned(b2, r2);
    AllInPlace(b2, r2, r1.backing, file);
  }

  lemma AllMapped(b0: Moment, b: Moment, r0: Region, r: Region)
    requires Progress(b0, b, r0, r) && r0 == ImageRegion(r0.pid, r0.root, r0.tables) && r.hi == TOP
    ensures r == r0.(hi := TOP, tables := r.tables, backing := r.backing)
    ensures ClearRange(b0.mem, r0.root, LOAD_VADDR, TOP)
    ensures b.available + FramesNeeded(b0.mem, r0.root, LOAD_VADDR, TOP) == b0.available
    ensures forall va: nat :: va in r.backing ==> r.backing[va] !in b0.held
    ensures Kept(b0, b, r0.pid, r0.tables, r.tables)
  {
    hide InOrder, Kept, SameOutlook, SameOutside, ClearRange, FramesNeeded, OpenedFor, Pages;
  }

  lemma SameLo(b0: Moment, b1: Moment, b2: Moment, r0: Region, r1: Region, r2: Region)
    requires Progress(b0, b1, r0, r1) && Progress(b0, b2, r0, r2)
    ensures r1.lo == r0.lo && r2.lo == r0.lo
  {
  }

  lemma SafeAgain(mm: MemoryManager, b: Moment, r: Region)
    requires mm.pool.Valid() && InOrder(b, r) && mm.pool.mem == b.mem && mm.pool.held == b.held
    requires mm.pool.base == b.base && mm.pool.end == b.end
    ensures Safe(mm.pool, r.root, r.tables)
  {
    hide FramePool.Valid, Tree, Covers, NoTables, WritableLayer, Mapping;
  }
}
