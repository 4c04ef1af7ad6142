/** What becomes of frames and pages over the life of a process: created, allocating, ended. */
module Lifetimes {
  import opened Words
  import opened Frames
  import opened PageTables
  import opened PageMapping
  import opened Regions
  import opened SharedRoots
  import opened Layers
  import opened Elf
  import opened Loader

  // ----- A process that allocates in its layer -----

  lemma TakenTrans(h0: set<nat>, h1: set<nat>, h2: set<nat>, l0: seq<nat>, l1: seq<nat>, l2: seq<nat>,
                   t0: set<nat>, t1: set<nat>, t2: set<nat>)
    requires Taken(h0, h1, l0, l1, t0, t1) && Taken(h1, h2, l1, l2, t1, t2)
    ensures Taken(h0, h2, l0, l2, t0, t2)
  {
  }

  /** When a list that began empty is freed, just the new tables stay taken. */
  lemma TablesStay(h0: set<nat>, h1: set<nat>, h2: set<nat>, l: seq<nat>, t0: set<nat>, t1: set<nat>)
    requires Taken(h0, h1, [], l, t0, t1) && forall i :: 0 <= i < |l| ==> l[i] !in t1
    requires forall f: nat :: f in h2 <==> f in h1 && f !in l
    ensures h2 == h0 + (t1 - t0) && h0 !! (t1 - t0)
  {
    forall f: nat ensures f in h2 <==> f in h0 + (t1 - t0) {
    }
  }

  lemma ListApart(tracked: seq<seq<nat>>, tables: set<nat>, pid: nat)
    requires NoTables(tracked, tables) && pid < |tracked|
    ensures forall i :: 0 <= i < |tracked[pid]| ==> tracked[pid][i] !in tables
    ensures forall t: nat :: t in tables ==> Untracked(tracked[pid := []], t)
  {
  }

  /** The creator's root is no table of the new process. */
  lemma CreatorApart(b0: Moment, b1: Moment, pid: nat, tables: set<nat>, tables': set<nat>, src: nat)
    requires Besides(b0, b1, pid, tables, tables') && src in b0.mem && src !in tables
    requires pid < |b0.tracked| && pid < |b1.tracked| && (Within(b0.base, b0.end, src) ==> src in b0.held)
    requires Taken(b0.held, b1.held, b0.tracked[pid], b1.tracked[pid], tables, tables')
    requires forall f: nat :: f in b1.held ==> Within(b1.base, b1.end, f)
    ensures src in b1.mem && b1.mem[src] == b0.mem[src]
  {
    hide InOrder, LinksKept;
  }

  /** What the creator of a process sees of its first allocation: no page outside the range changes, and
      the pages in it appear exactly if the creator's root has an entry for them. */
  method CreateAndAllocate(mm: MemoryManager, pid: nat, src: nat, dst: nat, size: u64, ghost tables: set<nat>)
    returns (r: int, ghost backing: map<nat, nat>)
    requires pid < mm.pcbs.Length && pid < MAX_PROCESSES && mm.Valid() && Safe(mm.pool, src, tables)
    requires NoTables(mm.tracked, tables)
    requires HasFrame(mm.pool.mem, dst) && dst !in tables && !mm.pool.InPool(dst) && Addr(dst) == dst
    requires WritableLayer(mm.pool.mem, src, EPHEMERAL_BASE + pid * EPHEMERAL_BYTES,
      EPHEMERAL_BASE + (pid + 1) * EPHEMERAL_BYTES)
    modifies mm`tracked, mm.pool, mm.pcbs
    ensures mm.Valid()
    ensures var base := EPHEMERAL_BASE + pid * EPHEMERAL_BYTES;
            && (r >= 0 ==> r == base && Pages(backing, base, base + AlignUp64(size)))
            && Appear(old(mm.pool.mem), mm.pool.mem, src, base, base + AlignUp64(size), backing)
  {
    hide Safe, WritableLayer, FramePool.Valid, Owned, FramePool.Available, NoTables, LinksKept, Linked, InOrder, CanMap;
    hide Walk, PathOf, Addr, FramesNeeded, AlignUp64, SharesAll, SameOutside, TablesRemain, Besides, Taken, Appear;
    hide Extends, FreshPages, OpenedFor, Pages;
    ghost var mem0 := mm.pool.mem;
    mm.ProvisionPcb(pid, src, dst, tables);
    RootFacts(mm, src, dst, tables);
    ghost var b, t := mm.Now(), tables - {src} + {dst};
    SpaceFacts(mm, pid, t, map[]);
    CloneShares(mem0, b.mem, src, dst);
    ghost var t';
    r, t', backing := mm.MemoryAllocate(pid, size, t, map[]);
    mm.pool.PoolFacts();
    SpaceFacts(mm, pid, t', backing);
    SpacePages(mm, pid, t', backing);
    CreatorApart(b, mm.Now(), pid, t, t', src);
    var base := EPHEMERAL_BASE + pid * EPHEMERAL_BYTES;
    PagesAppear(b.mem, mm.pool.mem, dst, src, base, base + AlignUp64(size), backing);
    AppearOn(mem0, b.mem, mm.pool.mem, src, base, base + AlignUp64(size), backing);
  }

  lemma SpacePages(mm: MemoryManager, pid: nat, tables: set<nat>, backing: map<nat, nat>)
    requires mm.Space(pid, tables, backing)
    ensures Pages(backing, mm.pcbs[pid].layerBase, mm.pcbs[pid].nextFree)
    ensures forall va: nat :: va in backing ==>
      Walk(mm.pool.mem, Addr(mm.pcbs[pid].pml4), PathOf(va)) == Page(backing[va], true, true)
  {
    hide FramePool.Valid, Tree, Covers, WritableLayer, Unshared, Walk, PathOf, Addr, NoTables, AllHeld;
  }

  lemma RootFacts(mm: MemoryManager, src: nat, dst: nat, tables: set<nat>)
    requires Safe(mm.pool, src, tables) && dst !in tables
    ensures src in mm.pool.mem && src !in tables - {src} + {dst} && (mm.pool.InPool(src) ==> src in mm.pool.held)
  {
    hide FramePool.Valid, Walk;
    WalkEmpty(mm.pool.mem, src);
    TableKnown(mm.pool.mem, src, [], tables);
  }

  lemma ListPerBlock(mm: MemoryManager)
    requires mm.Valid()
    ensures |mm.tracked| == mm.pcbs.Length
  {
    hide FramePool.Valid;
  }

  lemma SpaceFacts(mm: MemoryManager, pid: nat, tables: set<nat>, backing: map<nat, nat>)
    requires mm.Space(pid, tables, backing)
    ensures mm.Valid() && pid < |mm.tracked| && NoTables(mm.tracked, tables)
    ensures mm.pcbs[pid].layerBase <= mm.pcbs[pid].nextFree <= USER_LIMIT && mm.pcbs[pid].layerBase % FRAME == 0
  {
    hide FramePool.Valid, Tree, Covers, WritableLayer, Mapping, Unshared;
  }

  /** The bytes of a layer that allocations of these sizes use up. */
  function Rounded(sizes: seq<u64>): nat {
    if sizes == [] then 0 else Rounded(sizes[..|sizes| - 1]) + AlignUp64(sizes[|sizes| - 1])
  }

  lemma RoundedMore(sizes: seq<u64>, i: nat)
    requires i < |sizes|
    ensures Rounded(sizes[..i + 1]) == Rounded(sizes[..i]) + AlignUp64(sizes[i])
  {
    assert sizes[..i + 1][..i] == sizes[..i];
  }

  /** So far every allocation succeeded: `used` bytes of the layer are mapped. */
  ghost predicate AllMapped(b0: Moment, b: Moment, pid: nat, root: nat, base: nat, used: nat) {
    && pid < |b.pcbs| && pid < |b.tracked| && b.pcbs[pid].nextFree == base + used && used == FRAME * |b.tracked[pid]|
    && OpenedFor(b0.mem, b.mem, root, base, base + used)
    && b.available + FramesNeeded(b0.mem, root, base, base + used) == b0.available
  }

  lemma AllMappedMore(b0: Moment, b1: Moment, b2: Moment, pid: nat, root: nat, base: nat, used: nat, more: nat)
    requires AllMapped(b0, b1, pid, root, base, used) && base % FRAME == 0 && more % FRAME == 0
    requires base + used + more <= USER_LIMIT
    requires pid < |b2.pcbs| && pid < |b2.tracked| && b2.pcbs[pid].nextFree == base + used + more
    requires FRAME * |b2.tracked[pid]| == FRAME * |b1.tracked[pid]| + more
    requires OpenedFor(b1.mem, b2.mem, root, base + used, base + used + more)
    requires b2.available + FramesNeeded(b1.mem, root, base + used, base + used + more) == b1.available
    ensures AllMapped(b0, b2, pid, root, base, used + more)
  {
    hide OpenedFor, FramesNeeded;
    NeededSplit(b0.mem, b1.mem, root, base, base + used, base + used + more);
    OpenedTwice(b0.mem, b1.mem, b2.mem, root, base, base + used, base + used + more);
  }

  /** From the creation of a process over any number of allocations to its end: of the frames that were
      taken, the tables stay taken, and only they. They are on no list, so nothing will ever free them.
      If no allocation failed, they are as many as the range lacked when the process was created. */
  method Lifetime(mm: MemoryManager, pid: nat, src: nat, dst: nat, sizes: seq<u64>, ghost tables: set<nat>)
    returns (complete: bool, ghost built: set<nat>)
    requires pid < mm.pcbs.Length && pid < MAX_PROCESSES && mm.Valid() && Safe(mm.pool, src, tables)
    requires NoTables(mm.tracked, tables)
    requires HasFrame(mm.pool.mem, dst) && dst !in tables && !mm.pool.InPool(dst) && Addr(dst) == dst
    requires WritableLayer(mm.pool.mem, src, EPHEMERAL_BASE + pid * EPHEMERAL_BYTES,
      EPHEMERAL_BASE + (pid + 1) * EPHEMERAL_BYTES)
    modifies mm`tracked, mm.pool, mm.pcbs
    ensures mm.Valid() && mm.tracked == old(mm.tracked)[pid := []]
    ensures built !! old(mm.pool.held) && mm.pool.held == old(mm.pool.held) + built
    ensures mm.pool.Available() + |built| == old(mm.pool.Available())
    ensures forall t: nat :: t in built ==> Untracked(mm.tracked, t)
    ensures var base := EPHEMERAL_BASE + pid * EPHEMERAL_BYTES;
            complete ==>
              |built| + Rounded(sizes) / FRAME == FramesNeeded(old(mm.pool.mem), src, base, base + Rounded(sizes))
  {
    hide Safe, WritableLayer, FramePool.Valid, Owned, InOrder, FramePool.Available, NoTables, LinksKept, Linked, Walk;
    hide PathOf, Addr, Untracked, FramesNeeded, Rounded;
    var base := EPHEMERAL_BASE + pid * EPHEMERAL_BYTES;
    ghost var mem0 := mm.pool.mem;
    ListPerBlock(mm);
    mm.pool.PoolSum();
    mm.ProvisionPcb(pid, src, dst, tables);
    mm.pool.PoolSum();
    LinkedNil(mm.pool.mem);
    NeededCloned(mem0, mm.pool.mem, src, dst, base, base + Rounded(sizes));
    complete, built := AllocateAndExit(mm, pid, sizes, tables - {src} + {dst});
  }

  /** The same for a process whose layer is empty and whose list is too. */
  method AllocateAndExit(mm: MemoryManager, pid: nat, sizes: seq<u64>, ghost tables: set<nat>)
    returns (complete: bool, ghost built: set<nat>)
    requires mm.Space(pid, tables, map[]) && mm.LinksIntact(pid) && mm.tracked[pid] == []
    requires mm.pcbs[pid].nextFree == mm.pcbs[pid].layerBase
    modifies mm`tracked, mm.pool, mm.pcbs
    ensures mm.Valid() && mm.tracked == old(mm.tracked)
    ensures built !! old(mm.pool.held) && mm.pool.held == old(mm.pool.held) + built
    ensures mm.pool.Available() + |built| == old(mm.pool.Available())
    ensures forall t: nat :: t in built ==> Untracked(mm.tracked, t)
    ensures var root, base := Addr(old(mm.pcbs[pid]).pml4), old(mm.pcbs[pid]).layerBase;
            complete ==>
              |built| + Rounded(sizes) / FRAME == FramesNeeded(old(mm.pool.mem), root, base, base + Rounded(sizes))
  {
    hide FramePool.Valid, Owned, InOrder, FramePool.Available, Taken, NoTables, Linked, Addr, Untracked, FramesNeeded;
    hide LinksKept, AllMapped, Rounded;
    ghost var b, root, base := mm.Now(), Addr(mm.pcbs[pid].pml4), mm.pcbs[pid].layerBase;
    mm.pool.PoolSum();
    ghost var t, backing;
    complete, t, backing := AllocateAll(mm, pid, sizes, tables);
    SpaceFacts(mm, pid, t, backing);
    ListApart(mm.tracked, t, pid);
    ghost var b2 := mm.Now();
    mm.FreeProcessFrames(pid);
    built := t - tables;
    TablesStay(b.held, b2.held, mm.pool.held, b2.tracked[pid], tables, t);
    mm.pool.PoolSum();
    if complete { TablesCount(b, b2, pid, root, base, Rounded(sizes), mm.pool.Available(), |built|); }
  }

  /** One allocation after the other, in a layer that is empty at first. */
  method AllocateAll(mm: MemoryManager, pid: nat, sizes: seq<u64>, ghost t0: set<nat>)
    returns (complete: bool, ghost t: set<nat>, ghost backing: map<nat, nat>)
    requires mm.Space(pid, t0, map[]) && mm.LinksIntact(pid) && mm.tracked[pid] == []
    requires mm.pcbs[pid].nextFree == mm.pcbs[pid].layerBase
    modifies mm`tracked, mm.pool, mm.pcbs
    ensures mm.Space(pid, t, backing) && mm.LinksIntact(pid) && pid < |old(mm.tracked)| == |mm.tracked|
    ensures mm.pool.base == old(mm.pool.base) && mm.pool.end == old(mm.pool.end)
    ensures Taken(old(mm.pool.held), mm.pool.held, [], mm.tracked[pid], t0, t)
    ensures mm.tracked[pid := []] == old(mm.tracked)
    ensures complete ==>
      AllMapped(old(mm.Now()), mm.Now(), pid, Addr(old(mm.pcbs[pid]).pml4), old(mm.pcbs[pid]).layerBase, Rounded(sizes))
  {
    hide WritableLayer, FramePool.Valid, Owned, InOrder, FramePool.Available, Besides, Taken, NoTables, Extends, Walk;
    hide PathOf, Addr, TablesRemain, SameOutside, FreshPages, CanMap, AlignUp64, LinksKept, Linked, FramesNeeded;
    hide OpenedFor, AllMapped, Rounded;
    ghost var b, base, root := mm.Now(), mm.pcbs[pid].layerBase, Addr(mm.pcbs[pid].pml4);
    SpaceFacts(mm, pid, t0, map[]);
    TakenNone(b.held, t0);
    NoneMapped(b, pid, root, base);
    t, backing := t0, map[];
    var i := 0;
    complete := true;
    while i < |sizes|
      invariant 0 <= i <= |sizes| && mm.Space(pid, t, backing) && mm.LinksIntact(pid) && |mm.tracked| == |b.tracked|
      invariant mm.pool.base == b.base && mm.pool.end == b.end && Addr(mm.pcbs[pid].pml4) == root
      invariant Taken(b.held, mm.pool.held, [], mm.tracked[pid], t0, t) && mm.tracked[pid := []] == b.tracked
      invariant complete ==> AllMapped(b, mm.Now(), pid, root, base, Rounded(sizes[..i]))
    {
      ghost var b1, t1 := mm.Now(), t;
      var r;
      r, t, backing := mm.MemoryAllocate(pid, sizes[i], t, backing);
      BesidesFacts(b1, mm.Now(), pid, t1, t);
      TakenTrans(b.held, b1.held, mm.pool.held, [], b1.tracked[pid], mm.tracked[pid], t0, t1, t);
      SpaceFacts(mm, pid, t, backing);
      complete := complete && r >= 0;
      if complete { NowMapped(b, b1, mm.Now(), pid, root, base, sizes, i); }
      i := i + 1;
    }
    assert sizes[..|sizes|] == sizes;
  }

  lemma NowMapped(b0: Moment, b1: Moment, b2: Moment, pid: nat, root: nat, base: nat, sizes: seq<u64>, i: nat)
    requires i < |sizes| && AllMapped(b0, b1, pid, root, base, Rounded(sizes[..i])) && base % FRAME == 0
    requires pid < |b2.pcbs| && pid < |b2.tracked| && pid < |b1.pcbs| && pid < |b1.tracked|
    requires b2.pcbs[pid].nextFree == b1.pcbs[pid].nextFree + AlignUp64(sizes[i]) <= USER_LIMIT
    requires FRAME * |b2.tracked[pid]| == FRAME * |b1.tracked[pid]| + AlignUp64(sizes[i])
    requires OpenedFor(b1.mem, b2.mem, root, b1.pcbs[pid].nextFree, b2.pcbs[pid].nextFree)
    requires b2.available + FramesNeeded(b1.mem, root, b1.pcbs[pid].nextFree, b2.pcbs[pid].nextFree) == b1.available
    ensures AllMapped(b0, b2, pid, root, base, Rounded(sizes[..i + 1]))
  {
    hide OpenedFor, FramesNeeded, Rounded;
    RoundedMore(sizes, i);
    AllMappedMore(b0, b1, b2, pid, root, base, Rounded(sizes[..i]), AlignUp64(sizes[i]));
  }

  lemma NoneMapped(b: Moment, pid: nat, root: nat, base: nat)
    requires pid < |b.pcbs| && pid < |b.tracked| && b.pcbs[pid].nextFree == base && b.tracked[pid] == []
    ensures AllMapped(b, b, pid, root, base, Rounded([]))
  {
    hide OpenedFor;
    OpenedNone(b.mem, root, base);
  }

  lemma TablesCount(b0: Moment, b: Moment, pid: nat, root: nat, base: nat, used: nat, available: nat, built: nat)
    requires AllMapped(b0, b, pid, root, base, used) && pid < |b.tracked|
    requires available == b.available + |b.tracked[pid]| && available + built == b0.available
    ensures built + used / FRAME == FramesNeeded(b0.mem, root, base, base + used)
  {
    hide OpenedFor, FramesNeeded;
  }

  lemma TakenNone(held: set<nat>, tables: set<nat>)
    ensures Taken(held, held, [], [], tables, tables)
  {
  }

  lemma BesidesFacts(b0: Moment, b1: Moment, pid: nat, t0: set<nat>, t1: set<nat>)
    requires Besides(b0, b1, pid, t0, t1) && pid < |b0.tracked|
    ensures |b1.tracked| == |b0.tracked| && b1.tracked[pid := []] == b0.tracked[pid := []]
    ensures b1.base == b0.base && b1.end == b0.end && (LinkedIn(b0, pid) ==> LinkedIn(b1, pid))
  {
    hide InOrder, SameFrames, Linked;
  }

  // ----- A process made by the loader -----

  lemma {:induction false} ZeroBytes(j: nat)
    ensures ByteOf(0, j) == 0
  {
    if j > 0 { ZeroBytes(j - 1); }
  }

  /** Where the code was, there are zeros, but for the page's first word. */
  ghost predicate Blank(mem: Memory, root: nat) {
    forall va: nat :: LOAD_VADDR + 8 <= va < LOAD_VADDR + PAGE ==> UserByte(mem, root, va) == Some(0)
  }

  lemma BlankPage(mem: Memory, root: nat, f: nat)
    requires Walk(mem, root, PathOf(LOAD_VADDR)) == Page(f, true, true) && ZeroBehind(mem, f)
    ensures Blank(mem, root)
  {
    hide Walk, PathOf, ByteOf;
    forall va: nat | LOAD_VADDR + 8 <= va < LOAD_VADDR + PAGE ensures UserByte(mem, root, va) == Some(0) {
      assert va % FRAME == va - LOAD_VADDR && va / FRAME == LOAD_VADDR / FRAME;
      SamePagePath(va, LOAD_VADDR);
      WordAt(mem, f, va % FRAME / 8);
      ZeroBytes(va % 8);
    }
  }

  lemma ProvisionedSpace(mm: MemoryManager, r: Region)
    requires mm.Valid() && r.pid < mm.pcbs.Length && Provisioned(mm.Now(), r) && Safe(mm.pool, r.root, r.tables)
    requires mm.pcbs[r.pid] == Pcb(true, r.root, LOAD_VADDR, PAGE, LOAD_VADDR, 0) && Addr(r.root) == r.root
    ensures mm.Space(r.pid, r.tables, map[]) && mm.LinksIntact(r.pid) && mm.tracked[r.pid] == []
    ensures LOAD_VADDR in r.backing && r.backing[LOAD_VADDR] in mm.pool.held
    ensures Walk(mm.pool.mem, r.root, PathOf(LOAD_VADDR)) == Page(r.backing[LOAD_VADDR], true, true)
    ensures Walk(mm.pool.mem, r.root, PathOf(LOAD_VADDR)[..3]).Table?
  {
    hide Walk, PathOf, Addr, Tree, Covers, Granted, FramePool.Valid, InOrder, AllHeld, Unshared, Untracked, NoTables;
    LinkedNil(mm.pool.mem);
    mm.FreshSpace(r.pid, r.tables);
  }

  /** The first page that a compiled program allocates takes the place of its own code: at the entry
      point it then reads zeros. It gets the page iff there was one frame more than loading takes. */
  method AllocateAfterExec(mm: MemoryManager, file: seq<byte>, slot: Option<nat>, src: nat, dst: nat,
                           ghost tables: set<nat>)
    returns (r: int, a: int)
    requires BarrelFile(file) && mm.Valid() && (slot.Some? ==> slot.value < mm.pcbs.Length)
    requires Safe(mm.pool, src, tables) && NoTables(mm.tracked, tables)
    requires WritableLayer(mm.pool.mem, src, LOAD_VADDR, TOP)
    requires HasFrame(mm.pool.mem, dst) && dst !in tables && !mm.pool.InPool(dst) && Addr(dst) == dst
    modifies mm`tracked, mm.pool, mm.pcbs
    ensures mm.Valid()
    ensures a >= 0 <==>
      && slot.Some? && ClearRange(old(mm.pool.mem), src, LOAD_VADDR, TOP)
      && FramesNeeded(old(mm.pool.mem), src, LOAD_VADDR, TOP) + 1 <= old(mm.pool.Available())
    ensures a >= 0 ==> r >= 0 && Blank(mm.pool.mem, dst)
  {
    hide Safe, WritableLayer, FramePool.Valid, Owned, InOrder, FramePool.Available, NoTables, Walk, PathOf, Addr;
    hide FramesNeeded, ClearRange, BarrelFile, Provisioned, Ready, Appear, SameOutside, Blank, ZeroBehind;
    ghost var region;
    var entry, top;
    a := -1;
    r, entry, top, region := Exec(mm, file, slot, src, dst, tables);
    if r < 0 { return; }
    ProvisionedSpace(mm, region);
    a := FirstElfAllocation(mm, r, region.tables, region.backing[LOAD_VADDR]);
    if a >= 0 { BlankPage(mm.pool.mem, dst, Walk(mm.pool.mem, dst, PathOf(LOAD_VADDR)).frame); }
  }

  /** A compiled program that is loaded and ends: all frames that loading took stay taken. */
  method ElfLifetime(mm: MemoryManager, file: seq<byte>, slot: Option<nat>, src: nat, dst: nat, ghost tables: set<nat>)
    returns (r: int)
    requires BarrelFile(file) && mm.Valid() && (slot.Some? ==> slot.value < mm.pcbs.Length)
    requires Safe(mm.pool, src, tables) && NoTables(mm.tracked, tables)
    requires WritableLayer(mm.pool.mem, src, LOAD_VADDR, TOP)
    requires HasFrame(mm.pool.mem, dst) && dst !in tables && !mm.pool.InPool(dst) && Addr(dst) == dst
    modifies mm`tracked, mm.pool, mm.pcbs
    ensures mm.Valid()
    ensures r >= 0 ==>
      mm.pool.Available() + FramesNeeded(old(mm.pool.mem), src, LOAD_VADDR, TOP) == old(mm.pool.Available())
  {
    hide Safe, WritableLayer, FramePool.Valid, Owned, InOrder, FramePool.Available, NoTables, Walk, PathOf, Addr;
    hide FramesNeeded, ClearRange, BarrelFile, Provisioned, Ready, Appear, SameOutside, LinkedIn;
    ghost var region;
    var entry, top;
    r, entry, top, region := Exec(mm, file, slot, src, dst, tables);
    if r < 0 { return; }
    ProvisionedSpace(mm, region);
    mm.FreeProcessFrames(r);
  }

  // ----- The process that calls the loader -----

  lemma SameEntry(va: nat)
    requires LOAD_VADDR <= va < TOP
    ensures PathOf(va)[..1] == PathOf(LOAD_VADDR)[..1]
  {
    assert va / 0x80_0000_0000 == LOAD_VADDR / 0x80_0000_0000;
  }

  lemma SameSight(mem: Memory, a: nat, b: nat, va: nat)
    requires Walk(mem, a, PathOf(va)) == Walk(mem, b, PathOf(va))
    ensures UserByte(mem, a, va) == UserByte(mem, b, va) && UserWord(mem, a, va) == UserWord(mem, b, va)
  {
    hide Walk, PathOf, ByteOf, Word;
  }

  /** What the caller's root has for an address of the image's range. */
  lemma CallerAt(mem: Memory, b: Moment, r: Region, src: nat, va: nat)
    requires Provisioned(b, r) && Appear(mem, b.mem, src, LOAD_VADDR, TOP, r.backing) && LOAD_VADDR <= va < TOP
    ensures var top, seen := Walk(mem, src, PathOf(LOAD_VADDR)[..1]), Walk(b.mem, src, PathOf(va));
            if top.Table? then seen == Masked(Walk(b.mem, r.root, PathOf(va)), top.user) else seen == Fault
    ensures PathOf(va)[..1] == PathOf(LOAD_VADDR)[..1]
  {
    hide Walk, PathOf, WritableLayer, NoTables, Untracked, SameOutside;
    var page := va - va % FRAME;
    SamePagePath(va, page);
    SameEntry(page);
    assert page in r.backing;
  }

  /** A caller whose root has a user entry for the image's range finds the new program at its own load
      address, and the new stack behind it. */
  lemma CallerReplaced(mem: Memory, b: Moment, r: Region, src: nat, file: seq<byte>)
    requires Provisioned(b, r) && ImageSeen(b.mem, r.root, file) && |file| <= PAGE
    requires Appear(mem, b.mem, src, LOAD_VADDR, TOP, r.backing)
    requires var top := Walk(mem, src, PathOf(LOAD_VADDR)[..1]); top.Table? && top.user
    ensures ImageSeen(b.mem, src, file)
  {
    hide Walk, PathOf, UserByte, UserWord, Provisioned, Appear;
    forall va: nat | LOAD_VADDR <= va < TOP
      ensures UserByte(b.mem, src, va) == UserByte(b.mem, r.root, va)
      ensures UserWord(b.mem, src, va) == UserWord(b.mem, r.root, va)
    {
      CallerAt(mem, b, r, src, va);
      SameSight(b.mem, src, r.root, va);
    }
  }

  lemma CallerUntouched(mem: Memory, b: Moment, r: Region, src: nat)
    requires Provisioned(b, r) && Appear(mem, b.mem, src, LOAD_VADDR, TOP, r.backing) && src in mem
    requires !Walk(mem, src, PathOf(LOAD_VADDR)[..1]).Table?
    ensures SamePages(mem, b.mem, src)
  {
    assert SameOutside(mem, b.mem, src, LOAD_VADDR, TOP);
    hide Walk, PathOf, Provisioned, Appear;
    RootEntry(mem, mem, src, PathOf(LOAD_VADDR)[0]);
    assert PathOf(LOAD_VADDR)[..1] == [PathOf(LOAD_VADDR)[0]];
    forall q | IsPath(q) && |q| == 4 ensures Walk(b.mem, src, q) == Walk(mem, src, q) {
      if !OutsideRange(q, LOAD_VADDR, TOP) {
        var va: nat :| LOAD_VADDR <= va < TOP && PathOf(va) == q;
        CallerAt(mem, b, r, src, va);
        FaultBelow(mem, src, q[..1], q);
      }
    }
  }

  /** The caller keeps its pages exactly if its root has no entry for the range. */
  lemma CallerKeepsPages(mem: Memory, b: Moment, r: Region, src: nat, held: set<nat>)
    requires Provisioned(b, r) && Appear(mem, b.mem, src, LOAD_VADDR, TOP, r.backing) && src in mem
    requires forall va: nat :: va in r.backing ==> r.backing[va] !in held
    requires var a := Walk(mem, src, PathOf(LOAD_VADDR)); a.Page? ==> a.frame in held
    ensures SamePages(mem, b.mem, src) <==> !Walk(mem, src, PathOf(LOAD_VADDR)[..1]).Table?
  {
    hide Walk, PathOf, Provisioned, Appear;
    if Walk(mem, src, PathOf(LOAD_VADDR)[..1]).Table? {
      CallerAt(mem, b, r, src, LOAD_VADDR);
      ImageHasFrame(b, r, LOAD_VADDR);
      assert Walk(b.mem, src, PathOf(LOAD_VADDR)) != Walk(mem, src, PathOf(LOAD_VADDR));
    } else {
      CallerUntouched(mem, b, r, src);
    }
  }

  lemma ImageHasFrame(b: Moment, r: Region, va: nat)
    requires Provisioned(b, r) && va % FRAME == 0 && LOAD_VADDR <= va < TOP
    ensures va in r.backing && Walk(b.mem, r.root, PathOf(va)) == Page(r.backing[va], true, true)
  {
    hide Walk, PathOf, WritableLayer, NoTables, Untracked;
  }

  /** A page with user rights is reached through tables with user rights. */
  lemma {:induction false} UserAbove(mem: Memory, root: nat, p: seq<nat>, n: nat)
    requires n <= |p| && !Walk(mem, root, p).Fault? && Walk(mem, root, p).user
    ensures !Walk(mem, root, p[..n]).Fault? && Walk(mem, root, p[..n]).user
    decreases |p|
  {
    hide Walk, Word;
    if n == |p| {
      assert p[..n] == p;
    } else {
      WalkStep(mem, root, p);
      UserAbove(mem, root, p[..|p| - 1], n);
      assert p[..|p| - 1][..n] == p[..n];
    }
  }

  lemma ProvisionedEntry(b: Moment, r: Region)
    requires Provisioned(b, r)
    ensures var top := Walk(b.mem, r.root, PathOf(LOAD_VADDR)[..1]); top.Table? && top.user
  {
    ImageHasFrame(b, r, LOAD_VADDR);
    assert Walk(b.mem, r.root, PathOf(LOAD_VADDR)[..3]).Table?;
    hide Walk, PathOf, Provisioned;
    UserAbove(b.mem, r.root, PathOf(LOAD_VADDR), 1);
    TablesAbove(b.mem, r.root, PathOf(LOAD_VADDR)[..3], 1);
    assert PathOf(LOAD_VADDR)[..3][..1] == PathOf(LOAD_VADDR)[..1];
  }

  lemma ProvisionedFacts(b: Moment, r: Region)
    requires Provisioned(b, r)
    ensures NoTables(b.tracked, r.tables) && WritableLayer(b.mem, r.root, LOAD_VADDR, TOP)
    ensures ClearRange(b.mem, r.root, LOAD_VADDR, TOP)
    ensures FramesNeeded(b.mem, r.root, LOAD_VADDR, TOP) == 1 + STACK_PAGES
  {
    hide NoTables, WritableLayer, Walk, PathOf, TablesFor, FramesNeeded, ClearRange;
    PagesOnly(b.mem, r.root, LOAD_VADDR, TOP);
  }

  lemma FileFits(file: seq<byte>)
    requires BarrelFile(file)
    ensures |file| <= PAGE
  {
    hide FileHeader, SegmentHeader;
  }

  /** A compiled program that loads another one: both then see the second file at their load address.
      Since all tables exist by then, the second image takes just its 17 pages. */
  method ExecFromElf(mm: MemoryManager, file: seq<byte>, file': seq<byte>, slot: Option<nat>, slot': Option<nat>,
                     src: nat, dst: nat, dst': nat, ghost tables: set<nat>)
    returns (r: int, r': int)
    requires BarrelFile(file) && BarrelFile(file') && mm.Valid()
    requires (slot.Some? ==> slot.value < mm.pcbs.Length) && (slot'.Some? ==> slot'.value < mm.pcbs.Length)
    requires Safe(mm.pool, src, tables) && NoTables(mm.tracked, tables)
    requires WritableLayer(mm.pool.mem, src, LOAD_VADDR, TOP)
    requires HasFrame(mm.pool.mem, dst) && dst !in tables && !mm.pool.InPool(dst) && Addr(dst) == dst
    requires HasFrame(mm.pool.mem, dst') && dst' !in tables && !mm.pool.InPool(dst') && Addr(dst') == dst'
    requires dst' != dst
    modifies mm`tracked, mm.pool, mm.pcbs
    ensures mm.Valid()
    ensures r' >= 0 <==>
      && slot.Some? && slot'.Some? && ClearRange(old(mm.pool.mem), src, LOAD_VADDR, TOP)
      && FramesNeeded(old(mm.pool.mem), src, LOAD_VADDR, TOP) + 1 + STACK_PAGES <= old(mm.pool.Available())
    ensures r' >= 0 ==> ImageSeen(mm.pool.mem, dst', file') && ImageSeen(mm.pool.mem, dst, file')
  {
    hide Safe, WritableLayer, FramePool.Valid, Owned, FramePool.Available, NoTables, Walk, PathOf, Addr, ClearRange;
    hide FramesNeeded, BarrelFile, Provisioned, OwnPages, ImageSeen, Appear, SameOutside;
    r' := -1;
    ghost var region, region';
    var entry, top;
    r, entry, top, region := Exec(mm, file, slot, src, dst, tables);
    if r < 0 { return; }
    ghost var mem := mm.pool.mem;
    ProvisionedEntry(mm.Now(), region);
    ProvisionedFacts(mm.Now(), region);
    FileFits(file');
    r', entry, top, region' := Exec(mm, file', slot', dst, dst', region.tables);
    if r' >= 0 { CallerReplaced(mem, mm.Now(), region', dst, file'); }
  }
}
