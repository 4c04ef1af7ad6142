/** The frames of a process: the list that tracks them, and the bump layer they are mapped into. */
module Layers {
  import opened Words
  import opened ErrorCodes
  import opened Frames
  import opened PageTables
  import opened PageMapping
  import opened Regions

  function Reverse(s: seq<nat>): (r: seq<nat>)
    ensures |r| == |s| && forall i :: 0 <= i < |s| ==> r[i] == s[|s| - 1 - i]
  {
    if s == [] then [] else [s[|s| - 1]] + Reverse(s[..|s| - 1])
  }

  lemma ReverseSnoc(s: seq<nat>, x: nat)
    ensures Reverse(s + [x]) == [x] + Reverse(s)
  {
    assert (s + [x])[..|s|] == s;
  }

  /** `align_up` to a page in 64-bit arithmetic: the sum wraps. */
  function AlignUp64(size: u64): (r: nat)
    ensures r % FRAME == 0
    ensures size <= W64 - FRAME ==> size <= r < size + FRAME
    ensures size > W64 - FRAME ==> r == 0
  {
    Wrap(size + FRAME - 1) / FRAME * FRAME
  }

  /** A list of frames is intact exactly while the first words of its frames are. */
  lemma {:induction false} LinksExactly(mem: Memory, mem': Memory, head: nat, list: seq<nat>)
    requires Linked(mem, head, list) && forall f: nat :: f in list ==> HasFrame(mem', f)
    ensures Linked(mem', head, list) <==> forall f: nat :: f in list ==> Word(mem', f, 0) == Word(mem, f, 0)
    decreases |list|
  {
    if list != [] {
      assert list[0] == head && head in list;
      if mem'[head][0] == mem[head][0] {
        LinksExactly(mem, mem', mem[head][0], list[1..]);
      } else {
        HeadIs(mem, mem[head][0], list[1..]);
        if Linked(mem', mem'[head][0], list[1..]) { HeadIs(mem', mem'[head][0], list[1..]); }
      }
    }
  }

  lemma HeadIs(mem: Memory, head: nat, list: seq<nat>)
    requires Linked(mem, head, list)
    ensures head == if list == [] then 0 else list[0]
  {
  }

  const EPHEMERAL_BASE := 0x1000_0000_0000
  const EPHEMERAL_BYTES := 0x100_0000
  const MAX_PROCESSES := 64

  /** Where the root entries are absent, no table withholds write permission. */
  lemma AbsentIsWritable(mem: Memory, root: nat, lo: nat, hi: nat)
    requires forall va: nat :: lo <= va < hi ==> Walk(mem, root, PathOf(va)[..1]) == Fault
    ensures WritableLayer(mem, root, lo, hi)
  {
    hide Walk, PathOf, Granted;
    WalkEmpty(mem, root);
    forall va: nat | lo <= va < hi ensures Granted(mem, root, PathOf(va)[..3]) {
      var p := PathOf(va)[..3];
      FaultBelow(mem, root, PathOf(va)[..1], p);
      FaultBelow(mem, root, PathOf(va)[..1], p[..2]);
      OutlookStep(mem, root, p);
      OutlookStep(mem, root, p[..2]);
      assert p[..2][..1] == p[..1] == PathOf(va)[..1] && p[..1][..0] == [];
      OutlookStep(mem, root, p[..1]);
      OutlookStep(mem, root, []);
    }
  }

  lemma FreshRegion(b: Moment, r: Region)
    requires r.pid < |b.tracked| && Aligned(r) && r.hi == r.lo && r.backing == map[]
    requires Tree(b.mem, r.root) && Covers(b.mem, r.root, r.tables) && TablesHeld(b, r.tables)
    requires NoTables(b.tracked, r.tables) && WritableLayer(b.mem, r.root, r.lo, r.top)
    ensures InOrder(b, r)
  {
    hide Walk, PathOf, Tree, Covers, Granted, WritableLayer;
  }

  lemma LayerCloned(mem: Memory, mem': Memory, src: nat, dst: nat, lo: nat, hi: nat)
    requires WritableLayer(mem, src, lo, hi)
    requires forall q :: IsPath(q) ==> Granted(mem', dst, q) == Granted(mem, src, q)
    ensures WritableLayer(mem', dst, lo, hi)
  {
    hide Granted, PathOf;
    forall va: nat | lo <= va < hi ensures Granted(mem', dst, PathOf(va)[..3]) {
      assert IsPath(PathOf(va)[..3]);
    }
  }

  /** Layers lie in the lower half and begin with a page. */
  lemma LayerFits(pid: nat, base: nat)
    requires pid < MAX_PROCESSES && base == EPHEMERAL_BASE + pid * EPHEMERAL_BYTES
    ensures base % FRAME == 0 && base + EPHEMERAL_BYTES <= USER_LIMIT
  {
    assert base == FRAME * (0x1_0000_0000 + pid * 0x1000);
  }

  class MemoryManager {
    const pool: FramePool
    const pcbs: array<Pcb>
    ghost var tracked: seq<seq<nat>>

    ghost function Now(): Moment
      reads this, pool, pcbs
    {
      Moment(pool.mem, pool.base, pool.end, pool.held, pool.Available(), pcbs[..], tracked)
    }

    ghost predicate Valid()
      reads this, pool, pcbs
    {
      pool.Valid() && Owned(Now())
    }

    /** The links stored in the tracked frames are as `track_frame` wrote them. */
    ghost predicate LinksIntact(pid: nat)
      reads this, pool, pcbs
    {
      LinkedIn(Now(), pid)
    }

    /** The ephemeral layer of a process, as its control block describes it. */
    ghost function Layer(pid: nat, tables: set<nat>, backing: map<nat, nat>): Region
      requires pid < pcbs.Length
      reads pcbs
    {
      var b := pcbs[pid];
      Region(pid, Addr(b.pml4), b.layerBase, b.nextFree, b.layerBase + b.layerSize, tables, backing)
    }

    ghost predicate Space(pid: nat, tables: set<nat>, backing: map<nat, nat>)
      reads this, pool, pcbs
    {
      pid < pcbs.Length && Valid() && InOrder(Now(), Layer(pid, tables, backing))
    }

    constructor (pool: FramePool, pcbs: array<Pcb>)
      requires pool.Valid() && forall p :: 0 <= p < pcbs.Length ==> pcbs[p].framesHead == 0
      ensures this.pool == pool && this.pcbs == pcbs && Valid()
      ensures forall p :: 0 <= p < pcbs.Length ==> tracked[p] == [] && LinksIntact(p)
    {
      this.pool := pool;
      this.pcbs := pcbs;
      tracked := seq(pcbs.Length, _ => []);
    }

    /** Push a held frame on the process's list; every intact list stays intact. */
    method TrackFrame(pid: nat, phys: nat)
      requires Valid() && pid < pcbs.Length && phys in pool.held && phys != 0 && Untracked(tracked, phys)
      modifies this`tracked, pool`mem, pcbs
      ensures Valid() && tracked == old(tracked)[pid := [phys] + old(tracked)[pid]]
      ensures pcbs[..] == old(pcbs[..])[pid := old(pcbs[pid]).(framesHead := phys)]
      ensures HasFrame(old(pool.mem), phys) && pool.mem == SetWord(old(pool.mem), phys, 0, old(pcbs[pid]).framesHead)
      ensures LinksKept(old(Now()), Now())
    {
      hide FramePool.Valid, Word;
      pool.PoolFacts();
      pool.Store(phys, 0, pcbs[pid].framesHead);
      pcbs[pid] := pcbs[pid].(framesHead := phys);
      tracked := tracked[pid := [phys] + tracked[pid]];
      forall q: nat | LinkedIn(old(Now()), q) ensures LinkedIn(Now(), q) {
        LinkedFrame(old(pool.mem), pool.mem, old(pcbs[q]).framesHead, old(tracked)[q]);
      }
    }

    /** Every tracked frame of the process goes to the free list, once; other lists are untouched. */
    method FreeProcessFrames(pid: nat)
      requires Valid() && pid < pcbs.Length && LinksIntact(pid)
      modifies this`tracked, pool, pcbs
      ensures Valid() && tracked == old(tracked)[pid := []] && LinksKept(old(Now()), Now())
      ensures pcbs[..] == old(pcbs[..])[pid := old(pcbs[pid]).(framesHead := 0)]
      ensures pool.free == Reverse(old(tracked)[pid]) + old(pool.free)
      ensures forall f: nat :: f in pool.held <==> f in old(pool.held) && f !in old(tracked)[pid]
      ensures pool.base == old(pool.base) && pool.end == old(pool.end) && pool.next == old(pool.next)
      ensures pool.Available() == old(pool.Available()) + |old(tracked)[pid]|
      ensures forall f: nat :: f in old(pool.mem) && f !in old(tracked)[pid] ==>
        f in pool.mem && pool.mem[f] == old(pool.mem)[f]
    {
      hide FramePool.Valid, Reverse, AllHeld, Unshared, Linked, Distinct;
      ghost var list := tracked[pid];
      TrackedFacts(tracked, pool.held, pid);
      FreeChain(pool, pcbs[pid].framesHead, list);
      pcbs[pid] := pcbs[pid].(framesHead := 0);
      tracked := tracked[pid := []];
      ForgetTracked(old(tracked), old(pool.held), pool.held, pid);
      LinkedNil(pool.mem);
      forall q: nat | LinkedIn(old(Now()), q) ensures LinkedIn(Now(), q) {
        if q != pid {
          OtherTracked(old(tracked), pid, q);
          LinkedHeld(old(pool.mem), old(pcbs[q].framesHead), old(tracked)[q]);
          LinkedFrame(old(pool.mem), pool.mem, pcbs[q].framesHead, tracked[q]);
        }
      }
    }

    /** A frame that is fresh, tracked, and not yet mapped by the process. */
    method GrabFrame(pid: nat, ghost r: Region) returns (f: Option<nat>)
      requires Valid() && InOrder(Now(), r) && r.pid == pid
      modifies this`tracked, pool, pcbs
      ensures Valid() && InOrder(Now(), r) && pool.mem.Keys == old(pool.mem).Keys
      ensures f.None? <==> old(pool.Available()) == 0
      ensures f.None? ==> Now() == old(Now())
      ensures f.Some? ==> Grabbed(old(Now()), Now(), r, f.value)
    {
      hide Addr, FramePool.Valid, InOrder, Unshared, Zeroed, SetWord, LinksKept, Grabbed;
      ghost var b0 := Now();
      PidIn(b0, r);
      pool.PoolFacts();
      f := pool.AllocFrame();
      if f.None? { return; }
      pool.PoolFacts();
      HeldMore(tracked, b0.held, pool.held, f.value);
      ghost var b1 := Now();
      TrackFrame(pid, f.value);
      GrabDone(b0, b1, Now(), r, f.value);
    }

    /** One round of the loop of `memory_allocate`: a fresh frame is tracked and mapped at `va`. It
        succeeds iff no large page is in the way and there are frames for the page and its tables. */
    method MapFresh(pid: nat, pml4: nat, va: nat, ghost r: Region) returns (ok: bool, phys: nat, ghost r': Region)
      requires Valid() && InOrder(Now(), r) && r.pid == pid && r.root == Addr(pml4) && r.hi == va && va + FRAME <= r.top
      modifies this`tracked, pool, pcbs
      ensures Valid() && pool.mem.Keys == old(pool.mem).Keys && Stepped(old(Now()), Now(), r, r', ok)
      ensures ok ==> va in r'.backing && phys == r'.backing[va] && phys in tracked[pid]
    {
      hide Addr, FramePool.Valid, Tree, Covers, Granted, Obstructed, Missing, Walk, PathOf, AllHeld, Unshared, NoTables;
      hide WritableLayer, Mapping, SameOutlook, LinkedIn, OpensUpTo;
      ghost var b0 := Now();
      ok, phys, r' := false, 0, r;
      var frame := GrabFrame(pid, r);
      if frame.None? {
        NotStepped(b0, r);
        return;
      }
      phys := frame.value;
      ghost var b1, tables := Now(), r.tables;
      ok, tables := MapPage(pool, pml4, va, phys, true, true, r.tables);
      r' := Regions.Next(r, tables, phys, ok);
      MapPageKeeps(b1, Now(), r, tables);
      StepDone(b0, b1, Now(), r, tables, phys, ok);
    }

    /** The loop of `memory_allocate`: from `r0`, of which the pages up to `start` are done, to `end`. */
    method MapRange(pid: nat, pml4: nat, start: nat, end: nat, ghost b0: Moment, ghost r0: Region, ghost r: Region)
      returns (ok: bool, ghost r': Region)
      requires Valid() && Progress(b0, Now(), r0, r) && r.pid == pid && r.root == Addr(pml4)
      requires r.hi == start <= end <= r.top
      requires end % FRAME == 0
      modifies this`tracked, pool, pcbs
      ensures Valid() && pool.mem.Keys == old(pool.mem).Keys
      ensures Kept(old(Now()), Now(), pid, r.tables, r'.tables) && LinksKept(old(Now()), Now())
      ensures ok ==>
        && r'.hi == end && Progress(b0, Now(), r0, r') && FreshPages(pool.mem, r.backing, r'.backing)
        && Extends(r.backing, r'.backing, start, old(pool.held))
      ensures !ok ==> GaveUp(b0, Now(), r0, r'.tables, end)
    {
      hide Addr, InOrder, Stepped, Progress, GaveUp, FramePool.Valid, Owned, Kept, LinksKept, FreshPages, Extends;
      ghost var b := Now();
      ok, r' := true, r;
      var va := start;
      ProgressFacts(b0, b, r0, r);
      NothingMapped(b, r);
      while va < end
        invariant start <= va <= end && va % FRAME == 0 && r'.hi == va && Valid() && Progress(b0, Now(), r0, r')
        invariant pool.mem.Keys == b.mem.Keys && FreshPages(pool.mem, r.backing, r'.backing)
        invariant Kept(b, Now(), pid, r.tables, r'.tables) && LinksKept(b, Now())
        invariant Extends(r.backing, r'.backing, start, b.held)
      {
        ghost var b1, r1 := Now(), r';
        ProgressFacts(b0, b1, r0, r1);
        var phys;
        ok, phys, r' := MapFresh(pid, pml4, va, r1);
        SteppedFacts(b1, Now(), r1, r', ok);
        KeptTrans(b, b1, Now(), pid, r.tables, r1.tables, r'.tables);
        LinksTrans(b, b1, Now());
        if !ok {
          ProgressFails(b0, b1, Now(), r0, r1, r', end);
          return;
        }
        ProgressStep(b0, b1, Now(), r0, r1, r');
        FreshStep(b1, Now(), r, r1, r');
        ExtendsMore(b, b1, Now(), r, r1, r');
        va := va + FRAME;
      }
      ok := true;
    }

    /** On success the range is page-aligned, inside the layer, disjoint from every earlier one, and
        mapped user-writable to fresh frames. Earlier pages keep theirs, pages outside the range keep
        their translations, regions with other tables stay in order, and what was taken from the
        allocator is a new table or on the process's list, whatever happens. It succeeds
        iff the range fits the layer, no large page is in the way and there are enough frames. A size
        that wraps when rounded up yields an empty range. */
    method MemoryAllocate(pid: nat, size: u64, ghost tables: set<nat>, ghost backing: map<nat, nat>)
      returns (r: int, ghost tables': set<nat>, ghost backing': map<nat, nat>)
      requires Space(pid, tables, backing)
      modifies this`tracked, pool, pcbs
      ensures Space(pid, tables', backing') && Extends(backing, backing', old(pcbs[pid]).nextFree, old(pool.held))
      ensures pcbs[pid] == old(pcbs[pid]).(framesHead := pcbs[pid].framesHead, nextFree := pcbs[pid].nextFree)
      ensures Besides(old(Now()), Now(), pid, tables, tables')
      ensures Taken(old(pool.held), pool.held, old(tracked)[pid], tracked[pid], tables, tables')
      ensures TablesRemain(old(pool.mem), pool.mem, Addr(pcbs[pid].pml4))
      ensures SameOutside(old(pool.mem), pool.mem, Addr(pcbs[pid].pml4), old(pcbs[pid]).nextFree,
        old(pcbs[pid]).nextFree + AlignUp64(size))
      ensures r == ERR_INVALID_POINTER <==> size == 0
      ensures r == ERR_INVALID_PROCESS <==> size != 0 && !old(pcbs[pid]).live
      ensures r >= 0 <==>
        size != 0 && old(pcbs[pid]).live && CanMap(old(Now()), old(Layer(pid, tables, backing)), AlignUp64(size))
      ensures r < 0 && size != 0 && old(pcbs[pid]).live ==> r == ERR_OUT_OF_MEMORY
      ensures r < 0 ==> backing' == backing && pcbs[pid].nextFree == old(pcbs[pid]).nextFree
      ensures r >= 0 ==>
        && r == old(pcbs[pid]).nextFree && pcbs[pid].nextFree == r + AlignUp64(size)
        && (if size <= W64 - FRAME then r + size <= pcbs[pid].nextFree < r + size + FRAME else pcbs[pid].nextFree == r)
        && pool.Available() +
             FramesNeeded(old(pool.mem), Addr(pcbs[pid].pml4), r, pcbs[pid].nextFree) == old(pool.Available())
        && OpenedFor(old(pool.mem), pool.mem, Addr(pcbs[pid].pml4), r, pcbs[pid].nextFree)
        && FRAME * |tracked[pid]| == FRAME * |old(tracked)[pid]| + AlignUp64(size)
      ensures size > W64 - FRAME && old(pcbs[pid]).live ==> r == old(pcbs[pid]).nextFree
      ensures FreshPages(pool.mem, backing, backing')
    {
      hide Addr, InOrder, Obstructed, PathOf, SameOutlook, Linked, AlignUp64, Extends, SameOutside, Kept, LinksKept;
      hide Progress, GaveUp;
      hide FramePool.Valid, Owned, ClearRange, FramesNeeded, Besides, FreshPages, TablesRemain, Taken, OpenedFor;
      ghost var b0, region := Now(), Layer(pid, tables, backing);
      PidIn(b0, region);
      AlignedIn(b0, region);
      NothingDone(b0, pid, tables, region, AlignUp64(size));
      tables', backing' := tables, backing;
      if size == 0 { return ERR_INVALID_POINTER, tables, backing; }
      if !pcbs[pid].live { return ERR_INVALID_PROCESS, tables, backing; }
      var end := pcbs[pid].nextFree + AlignUp64(size);
      if end >= W64 { return ERR_OUT_OF_MEMORY, tables, backing; }
      if end > pcbs[pid].layerBase + pcbs[pid].layerSize { return ERR_OUT_OF_MEMORY, tables, backing; }
      var start := pcbs[pid].nextFree;
      var ok;
      ghost var after;
      StartProgress(region);
      ok, after := MapRange(pid, pcbs[pid].pml4, start, end, b0, region, region);
      tables' := after.tables;
      pool.PoolFacts();
      if !ok {
        GaveUpFacts(b0, Now(), region, tables', end);
        return ERR_OUT_OF_MEMORY, tables', backing;
      }
      backing' := after.backing;
      DoneFacts(b0, Now(), region, after);
      SetNextFree(pid, end, b0, after, tables);
      r := start;
    }

    method SetNextFree(pid: nat, end: nat, ghost b0: Moment, ghost r: Region, ghost tables: set<nat>)
      requires pid < pcbs.Length && Valid() && InOrder(Now(), r) && Besides(b0, Now(), pid, tables, r.tables)
      modifies pcbs
      ensures Valid() && InOrder(Now(), r) && Besides(b0, Now(), pid, tables, r.tables)
      ensures pcbs[..] == old(pcbs[..])[pid := old(pcbs[pid]).(nextFree := end)]
    {
      hide InOrder, Besides, FramePool.Valid, Owned;
      ghost var b1 := Now();
      pcbs[pid] := pcbs[pid].(nextFree := end);
      NextFreeSet(b0, b1, Now(), pid, tables, r.tables);
      BlocksOnly(b1, Now(), r);
    }

    /** A process whose layer is unused has an empty address space in any tree that is in order and has
        no table on the way to the layer that withholds write permission. */
    lemma FreshSpace(pid: nat, tables: set<nat>)
      requires pid < pcbs.Length && Valid() && Safe(pool, Addr(pcbs[pid].pml4), tables) && NoTables(tracked, tables)
      requires pcbs[pid].nextFree == pcbs[pid].layerBase && Aligned(Layer(pid, tables, map[]))
      requires var b := pcbs[pid]; WritableLayer(pool.mem, Addr(b.pml4), b.layerBase, b.layerBase + b.layerSize)
      ensures Space(pid, tables, map[])
    {
      hide Tree, Covers, FramePool.Valid, AllHeld, Unshared, WritableLayer, InOrder;
      FreshRegion(Now(), Layer(pid, tables, map[]));
    }

    /** `clone_current_pml4_for` and `provision_pcb`: the new process sees the pages of the current one,
        and its layer is empty. */
    method ProvisionPcb(pid: nat, src: nat, dst: nat, ghost tables: set<nat>)
      requires pid < pcbs.Length && pid < MAX_PROCESSES && Valid() && Safe(pool, src, tables)
      requires NoTables(tracked, tables)
      requires HasFrame(pool.mem, dst) && dst !in tables && !pool.InPool(dst) && Addr(dst) == dst
      requires WritableLayer(pool.mem, src, EPHEMERAL_BASE + pid * EPHEMERAL_BYTES,
        EPHEMERAL_BASE + (pid + 1) * EPHEMERAL_BYTES)
      modifies this`tracked, pool`mem, pcbs
      ensures Space(pid, tables - {src} + {dst}, map[]) && Safe(pool, src, tables)
      ensures forall q :: IsPath(q) && q != [] ==> Walk(pool.mem, dst, q) == Walk(old(pool.mem), src, q)
      ensures forall q :: IsPath(q) ==> Walk(pool.mem, src, q) == Walk(old(pool.mem), src, q)
      ensures var base := EPHEMERAL_BASE + pid * EPHEMERAL_BYTES;
              pcbs[..] == old(pcbs[..])[pid := Pcb(true, dst, base, EPHEMERAL_BYTES, base, 0)]
      ensures tracked == old(tracked)[pid := []] && LinksKept(old(Now()), Now())
    {
      hide Walk, Tree, Covers, Granted, Obstructed, FramePool.Valid, Addr, WritableLayer, Linked, PathOf;
      ghost var b0 := Now();
      pool.PoolFacts();
      ClonePml4(pool, src, dst, tables);
      var base := EPHEMERAL_BASE + pid * EPHEMERAL_BYTES;
      LayerCloned(b0.mem, pool.mem, src, dst, base, base + EPHEMERAL_BYTES);
      pcbs[pid] := Pcb(true, dst, base, EPHEMERAL_BYTES, base, 0);
      tracked := tracked[pid := []];
      LinkedNil(pool.mem);
      forall q: nat | LinkedIn(b0, q) ensures LinkedIn(Now(), q) {
        if q != pid {
          LinksUntouched(b0.mem, pool.mem, tracked, pool.held, pcbs[q].framesHead, q);
        }
      }
      LayerFits(pid, base);
      FreshSpace(pid, tables - {src} + {dst});
    }

    lemma StartProgress(r: Region)
      requires Valid() && InOrder(Now(), r)
      ensures Progress(Now(), Now(), r, r)
    {
      hide InOrder, Progress, FramePool.Valid, AllHeld, Unshared;
      PidIn(Now(), r);
      ProgressStart(Now(), r);
    }
  }

  /** The range of `size` bytes behind the region can be mapped. */
  ghost predicate CanMap(b: Moment, r: Region, size: nat) {
    && r.hi + size <= r.top && ClearRange(b.mem, r.root, r.hi, r.hi + size)
    && FramesNeeded(b.mem, r.root, r.hi, r.hi + size) <= b.available
  }

  /** Everything but the process itself: other control blocks and lists, memory in use, and every
      region of another process that shares no table with it. */
  ghost predicate Besides(b0: Moment, b1: Moment, pid: nat, t0: set<nat>, t1: set<nat>) {
    && b1.base == b0.base && b1.end == b0.end && b0.held <= b1.held && SameFrames(b0, b1, t1) && LinksKept(b0, b1)
    && |b1.pcbs| == |b0.pcbs| && |b1.tracked| == |b0.tracked|
    && (forall q :: 0 <= q < |b0.pcbs| && q != pid ==> b1.pcbs[q] == b0.pcbs[q])
    && (forall q :: 0 <= q < |b0.tracked| && q != pid ==> b1.tracked[q] == b0.tracked[q])
    && (forall r: Region :: r.pid != pid && InOrder(b0, r) && r.tables !! t0 ==> InOrder(b1, r) && r.tables !! t1)
  }

  lemma BesidesAll(b0: Moment, b1: Moment, pid: nat, t0: set<nat>, t1: set<nat>)
    requires Kept(b0, b1, pid, t0, t1) && LinksKept(b0, b1) && Owned(b1)
    requires b1.mem.Keys == b0.mem.Keys && forall f: nat :: f in b1.held ==> Within(b1.base, b1.end, f)
    ensures Besides(b0, b1, pid, t0, t1)
  {
    hide InOrder, SameFrames, LinkedIn, AllHeld, Unshared;
    forall r: Region | r.pid != pid && InOrder(b0, r) && r.tables !! t0 ensures InOrder(b1, r) && r.tables !! t1 {
      OtherRegionKept(b0, b1, pid, t0, t1, r);
    }
  }

  lemma NothingDone(b: Moment, pid: nat, tables: set<nat>, r: Region, size: nat)
    requires pid < |b.tracked|
    ensures Taken(b.held, b.held, b.tracked[pid], b.tracked[pid], tables, tables) && TablesRemain(b.mem, b.mem, r.root)
    ensures Besides(b, b, pid, tables, tables) && Extends(r.backing, r.backing, r.hi, b.held)
    ensures SameOutside(b.mem, b.mem, r.root, r.hi, r.hi + size)
    ensures size == 0 && r.hi <= r.top ==> CanMap(b, r, size)
    ensures FreshPages(b.mem, r.backing, r.backing)
  {
    hide InOrder, LinkedIn;
    SameRefl(b.mem, r.root);
  }

  lemma GaveUpFacts(b0: Moment, b1: Moment, r: Region, tables: set<nat>, end: nat)
    requires GaveUp(b0, b1, r, tables, end) && Owned(b1) && r.hi <= end && LinksKept(b0, b1)
    requires b1.mem.Keys == b0.mem.Keys && forall f: nat :: f in b1.held ==> Within(b1.base, b1.end, f)
    ensures Besides(b0, b1, r.pid, r.tables, tables) && InOrder(b1, r.(tables := tables)) && !CanMap(b0, r, end - r.hi)
    ensures SameOutside(b0.mem, b1.mem, r.root, r.hi, end) && Extends(r.backing, r.backing, r.hi, b0.held)
    ensures FreshPages(b1.mem, r.backing, r.backing)
    ensures r.pid < |b0.pcbs| == |b1.pcbs| && b1.pcbs[r.pid] == b0.pcbs[r.pid].(framesHead := b1.pcbs[r.pid].framesHead)
    ensures r.pid < |b0.tracked| == |b1.tracked| && TablesRemain(b0.mem, b1.mem, r.root)
    ensures Taken(b0.held, b1.held, b0.tracked[r.pid], b1.tracked[r.pid], r.tables, tables)
  {
    hide InOrder, SameFrames, LinkedIn, AllHeld, Unshared, Besides, SameOutside, ClearRange, FramesNeeded, TablesRemain;
    hide Taken;
    BesidesAll(b0, b1, r.pid, r.tables, tables);
  }

  lemma DoneFacts(b0: Moment, b1: Moment, r: Region, r': Region)
    requires Progress(b0, b1, r, r') && Owned(b1) && LinksKept(b0, b1)
    requires b1.mem.Keys == b0.mem.Keys && forall f: nat :: f in b1.held ==> Within(b1.base, b1.end, f)
    ensures Besides(b0, b1, r.pid, r.tables, r'.tables) && InOrder(b1, r') && r'.hi <= r.top
    ensures r == r'.(hi := r.hi, tables := r.tables, backing := r.backing) && CanMap(b0, r, r'.hi - r.hi)
    ensures SameOutside(b0.mem, b1.mem, r.root, r.hi, r'.hi) && Extends(r.backing, r'.backing, r.hi, b0.held)
    ensures r.pid < |b0.pcbs| == |b1.pcbs| && b1.pcbs[r.pid] == b0.pcbs[r.pid].(framesHead := b1.pcbs[r.pid].framesHead)
    ensures r.pid < |b0.tracked| == |b1.tracked| && TablesRemain(b0.mem, b1.mem, r.root)
    ensures Taken(b0.held, b1.held, b0.tracked[r.pid], b1.tracked[r.pid], r.tables, r'.tables)
    ensures b1.available + FramesNeeded(b0.mem, r.root, r.hi, r'.hi) == b0.available
    ensures OpenedFor(b0.mem, b1.mem, r.root, r.hi, r'.hi)
    ensures FRAME * |b1.tracked[r.pid]| == FRAME * |b0.tracked[r.pid]| + r'.hi - r.hi
  {
    hide InOrder, SameFrames, LinkedIn, AllHeld, Unshared, Besides, SameOutside, ClearRange, FramesNeeded, Extends;
    hide OpenedFor, TablesRemain, Taken;
    AlignedIn(b1, r');
    BesidesAll(b0, b1, r.pid, r.tables, r'.tables);
  }

  /** A change of the process's own control block that leaves the head of its list alone. */
  lemma NextFreeSet(b0: Moment, b1: Moment, b2: Moment, pid: nat, t0: set<nat>, t1: set<nat>)
    requires Besides(b0, b1, pid, t0, t1) && b2 == b1.(pcbs := b2.pcbs) && |b2.pcbs| == |b1.pcbs|
    requires forall q :: 0 <= q < |b1.pcbs| ==>
      b2.pcbs[q].framesHead == b1.pcbs[q].framesHead && (q != pid ==> b2.pcbs[q] == b1.pcbs[q])
    ensures Besides(b0, b2, pid, t0, t1)
  {
    hide InOrder, Linked;
    forall r: Region ensures InOrder(b1, r) == InOrder(b2, r) {
      BlocksOnly(b1, b2, r);
    }
  }

  lemma BlocksOnly(b1: Moment, b2: Moment, r: Region)
    requires b2 == b1.(pcbs := b2.pcbs)
    ensures InOrder(b1, r) == InOrder(b2, r)
    ensures |b2.pcbs| == |b1.pcbs| && Owned(b1) ==> Owned(b2)
  {
    hide Walk, PathOf, Tree, Covers, Granted, NoTables, WritableLayer, Mapping, AllHeld, Unshared;
  }

  lemma PidIn(b: Moment, r: Region)
    requires InOrder(b, r)
    ensures r.pid < |b.tracked|
  {
  }

  lemma ProgressFacts(b0: Moment, b: Moment, r0: Region, r: Region)
    requires Progress(b0, b, r0, r)
    ensures InOrder(b, r) && r.pid == r0.pid && r.root == r0.root && r.top == r0.top && Aligned(r)
  {
    hide InOrder;
    AlignedIn(b, r);
  }

  lemma SteppedFacts(b0: Moment, b1: Moment, r: Region, r': Region, ok: bool)
    requires Stepped(b0, b1, r, r', ok)
    ensures Kept(b0, b1, r.pid, r.tables, r'.tables) && LinksKept(b0, b1) && r'.hi == if ok then r.hi + FRAME else r.hi
  {
    hide InOrder, Kept, LinksKept;
  }

  lemma ExtendsMore(b: Moment, b1: Moment, b2: Moment, r: Region, r1: Region, r2: Region)
    requires Stepped(b1, b2, r1, r2, true) && InOrder(b1, r1) && r.hi <= r1.hi
    requires Extends(r.backing, r1.backing, r.hi, b.held)
    requires Kept(b, b1, r.pid, r.tables, r1.tables)
    ensures Extends(r.backing, r2.backing, r.hi, b.held)
  {
    hide InOrder, Kept, LinksKept, Extends;
    AlignedIn(b1, r1);
    HeldGrows(b, b1, r.pid, r.tables, r1.tables);
    ExtendsStep(b, b1, r, r1, r2);
  }

  lemma NothingMapped(b: Moment, r: Region)
    requires InOrder(b, r) && Owned(b)
    ensures Kept(b, b, r.pid, r.tables, r.tables) && LinksKept(b, b) && FreshPages(b.mem, r.backing, r.backing)
    ensures Extends(r.backing, r.backing, r.hi, b.held)
  {
    hide Walk, PathOf, Tree, Covers, Granted, NoTables, WritableLayer, Mapping, AllHeld, Unshared, LinkedIn;
  }

  /** Without a frame nothing happens. */
  lemma NotStepped(b: Moment, r: Region)
    requires InOrder(b, r) && Owned(b) && b.available == 0
    ensures Stepped(b, b, r, r, false)
  {
    hide Walk, PathOf, Tree, Covers, Granted, Obstructed, Missing, NoTables, WritableLayer, Mapping, AllHeld, Unshared;
    hide LinkedIn;
    SameRefl(b.mem, r.root);
  }

  /** What `map_page` promises, said of moments. */
  lemma MapPageKeeps(b1: Moment, b2: Moment, r: Region, tables: set<nat>)
    requires InOrder(b1, r) && Owned(b1) && b2.tracked == b1.tracked && b2.pcbs == b1.pcbs && b2.base == b1.base
    requires b2.end == b1.end
    requires OnlyTables(b1.mem, b1.held, b2.mem, b2.held, r.tables, tables)
    ensures Kept(b1, b2, r.pid, r.tables, tables) && LinksKept(b1, b2)
  {
    hide Walk, PathOf, Tree, Covers, Granted, WritableLayer, Mapping, Unshared, Linked;
    forall q: nat | LinkedIn(b1, q) ensures LinkedIn(b2, q) {
      LinksApart(b1.mem, b2.mem, b1.tracked, b1.held, r.tables, tables, b1.pcbs[q].framesHead, q);
    }
  }

  lemma LinksApart(mem: Memory, mem': Memory, tracked: seq<seq<nat>>, held: set<nat>, t0: set<nat>, t1: set<nat>,
                   head: nat, q: nat)
    requires q < |tracked| && NoTables(tracked, t0) && AllHeld(tracked, held) && held !! (t1 - t0)
    requires Linked(mem, head, tracked[q])
    requires forall f: nat :: f in mem && f !in t1 ==> f in mem' && mem'[f] == mem[f]
    ensures Linked(mem', head, tracked[q])
  {
    hide Linked;
    LinkedHeld(mem, head, tracked[q]);
    LinkedFrame(mem, mem', head, tracked[q]);
  }

  lemma LinksUntouched(mem: Memory, mem': Memory, tracked: seq<seq<nat>>, held: set<nat>, head: nat, q: nat)
    requires q < |tracked| && AllHeld(tracked, held) && Linked(mem, head, tracked[q])
    requires forall f: nat :: f in mem && f in held ==> f in mem' && mem'[f] == mem[f]
    ensures Linked(mem', head, tracked[q])
  {
    hide Linked;
    LinkedHeld(mem, head, tracked[q]);
    LinkedFrame(mem, mem', head, tracked[q]);
  }

  /** Allocation and tracking, said of moments. */
  lemma GrabDone(b0: Moment, b1: Moment, b2: Moment, r: Region, f: nat)
    requires InOrder(b0, r) && Owned(b0) && f !in b0.held && Within(b0.base, b0.end, f) && b0.end <= PHYS_LIMIT
    requires HasFrame(b0.mem, f)
    requires b1 == b0.(mem := b0.mem[f := Zeroed()], held := b0.held + {f}, available := b1.available)
    requires b1.available + 1 == b0.available
    requires b2 == b1.(mem := SetWord(b1.mem, f, 0, b1.pcbs[r.pid].framesHead), pcbs := b2.pcbs, tracked := b2.tracked)
    requires b2.pcbs == b1.pcbs[r.pid := b1.pcbs[r.pid].(framesHead := f)] && LinksKept(b1, b2)
    requires b2.tracked == b1.tracked[r.pid := [f] + b1.tracked[r.pid]]
    ensures InOrder(b2, r) && Grabbed(b0, b2, r, f) && b2.mem.Keys == b0.mem.Keys
  {
    hide Walk, PathOf, Addr, Tree, Covers, Granted, Unshared, WritableLayer, Mapping, SameOutlook, NoTables, Zeroed;
    hide LinkedIn, ZeroBehind;
    hide SetWord, LinksKept, Word;
    assert b2.mem.Keys == b0.mem.Keys;
    AddrOfFrame(f);
    HeldUntouched(b0, b1);
    LinksTrans(b0, b1, b2);
    ZeroedBehind(b1.mem, f, b1.pcbs[r.pid].framesHead);
    ElsewhereHarmless(b0.mem, b2.mem, r.root, r.tables);
    TrackedMore(b0, b2, r, f);
  }

  /** Lists do not notice a change of memory that nobody holds. */
  lemma HeldUntouched(b0: Moment, b1: Moment)
    requires AllHeld(b0.tracked, b0.held) && b1.pcbs == b0.pcbs && b1.tracked == b0.tracked
    requires forall f: nat :: f in b0.mem && f in b0.held ==> f in b1.mem && b1.mem[f] == b0.mem[f]
    ensures LinksKept(b0, b1)
  {
    hide Linked, AllHeld;
    forall q: nat | LinkedIn(b0, q) ensures LinkedIn(b1, q) {
      LinksUntouched(b0.mem, b1.mem, b0.tracked, b0.held, b0.pcbs[q].framesHead, q);
    }
  }

  lemma HeldMore(tracked: seq<seq<nat>>, held: set<nat>, held': set<nat>, f: nat)
    requires AllHeld(tracked, held) && f !in held && held <= held'
    ensures AllHeld(tracked, held') && Untracked(tracked, f)
  {
  }

  /** The loop of `free_process_frames`: each link is read before its frame is freed. */
  method FreeChain(pool: FramePool, head: nat, ghost list: seq<nat>)
    requires pool.Valid() && Linked(pool.mem, head, list) && Distinct(list)
    requires forall f: nat :: f in list ==> f in pool.held
    modifies pool
    ensures pool.Valid() && pool.free == Reverse(list) + old(pool.free)
    ensures forall f: nat :: f in pool.held <==> f in old(pool.held) && f !in list
    ensures pool.base == old(pool.base) && pool.end == old(pool.end) && pool.next == old(pool.next)
    ensures forall f: nat :: f in old(pool.mem) && f !in list ==> f in pool.mem && pool.mem[f] == old(pool.mem)[f]
  {
    hide FramePool.Valid, Reverse, Linked, Distinct;
    ghost var done, rest := [], list;
    var frame := head;
    ReverseNil();
    while frame != 0
      invariant pool.Valid() && list == done + rest && Linked(pool.mem, frame, rest)
      invariant Distinct(rest) && forall f: nat :: f in rest ==> f in pool.held
      invariant pool.free == Reverse(done) + old(pool.free)
      invariant forall f: nat :: f in pool.held <==> f in old(pool.held) && f !in done
      invariant pool.base == old(pool.base) && pool.end == old(pool.end) && pool.next == old(pool.next)
      invariant forall f: nat :: f in old(pool.mem) && f !in done ==> f in pool.mem && pool.mem[f] == old(pool.mem)[f]
      decreases |rest|
    {
      LinkedCons(pool.mem, frame, rest);
      DistinctTail(rest);
      pool.PoolFacts();
      var next := pool.mem[frame][0];
      ghost var mem1 := pool.mem;
      pool.FreeFrame(frame);
      LinkedHeld(mem1, next, rest[1..]);
      LinkedFrame(mem1, pool.mem, next, rest[1..]);
      ReverseSnoc(done, frame);
      done, rest := done + [frame], rest[1..];
      frame := next;
    }
    LinkedZero(pool.mem, rest);
    assert done == list;
  }

  lemma LinkedCons(mem: Memory, head: nat, list: seq<nat>)
    requires Linked(mem, head, list) && head != 0
    ensures list != [] && head == list[0] && HasFrame(mem, head) && Linked(mem, mem[head][0], list[1..])
  {
  }

  lemma LinkedZero(mem: Memory, list: seq<nat>)
    requires Linked(mem, 0, list)
    ensures list == []
  {
  }

  lemma LinkedNil(mem: Memory)
    ensures Linked(mem, 0, [])
  {
  }

  lemma ReverseNil()
    ensures Reverse([]) == []
  {
  }

  lemma {:induction false} LinkedHeld(mem: Memory, head: nat, list: seq<nat>)
    requires Linked(mem, head, list)
    ensures forall f: nat :: f in list ==> HasFrame(mem, f)
    decreases |list|
  {
    if list != [] {
      LinkedHeld(mem, mem[head][0], list[1..]);
      assert list == [head] + list[1..];
    }
  }

  lemma TrackedFacts(tracked: seq<seq<nat>>, held: set<nat>, pid: nat)
    requires AllHeld(tracked, held) && Unshared(tracked) && pid < |tracked|
    ensures Distinct(tracked[pid]) && forall f: nat :: f in tracked[pid] ==> f in held
  {
  }

  lemma OtherTracked(tracked: seq<seq<nat>>, pid: nat, q: nat)
    requires Unshared(tracked) && pid < |tracked| && q < |tracked| && q != pid
    ensures forall f: nat :: f in tracked[q] ==> f !in tracked[pid]
  {
  }

  lemma ForgetTracked(tracked: seq<seq<nat>>, held: set<nat>, held': set<nat>, pid: nat)
    requires AllHeld(tracked, held) && Unshared(tracked) && pid < |tracked|
    requires forall f: nat :: f in held' <==> f in held && f !in tracked[pid]
    ensures AllHeld(tracked[pid := []], held') && Unshared(tracked[pid := []])
  {
  }

  /** The way to an existing table consists of tables, and nothing stands in it. */
  lemma {:induction false} TablesAbove(mem: Memory, root: nat, p: seq<nat>, n: nat)
    requires n <= |p| <= 3 && Walk(mem, root, p).Table?
    ensures Walk(mem, root, p[..n]).Table? && !Obstructed(mem, root, p[..n])
    decreases |p|
  {
    hide Walk, Obstructed, Word;
    var m := |p| - 1;
    if m >= 0 {
      WalkStep(mem, root, p);
      TablesAbove(mem, root, p[..m], if n <= m then n else m);
      assert p[..m][..if n <= m then n else m] == if n <= m then p[..n] else p[..m];
    }
    if n == |p| {
      assert p[..n] == p;
      OutlookStep(mem, root, p);
    }
  }

  /** The tables for all pages of the range exist. */
  ghost predicate TablesFor(mem: Memory, root: nat, start: nat, end: nat) {
    forall va: nat :: va % FRAME == 0 && start <= va < end ==> Walk(mem, root, PathOf(va)[..3]).Table?
  }

  /** Where all tables exist, nothing is in the way and each page takes one frame. */
  lemma {:induction false} PagesOnly(mem: Memory, root: nat, start: nat, end: nat)
    requires TablesFor(mem, root, start, end) && start % FRAME == 0 && end % FRAME == 0 && start <= end
    ensures FramesNeeded(mem, root, start, end) == (end - start) / FRAME && ClearRange(mem, root, start, end)
    decreases end
  {
    hide Walk, PathOf, Obstructed, FramesNeeded, NewTables;
    if start == end {
      NeededNone(mem, root, start);
    } else {
      var va := end - FRAME;
      PagesOnly(mem, root, start, va);
      NeededMore(mem, root, start, va);
      NothingNew(mem, root, start, va);
      forall v: nat | va <= v < end ensures !Obstructed(mem, root, PathOf(v)[..3]) {
        SamePagePath(v, va);
      }
    }
  }

  lemma NothingNew(mem: Memory, root: nat, start: nat, va: nat)
    requires Walk(mem, root, PathOf(va)[..3]).Table?
    ensures NewTables(mem, root, start, va, 3) == 0 && !Obstructed(mem, root, PathOf(va)[..3])
  {
    hide Walk, PathOf, Obstructed, Regions.Shared;
    var p := PathOf(va)[..3];
    forall n | 0 <= n <= 3 ensures Walk(mem, root, PathOf(va)[..n]).Table? {
      TablesAbove(mem, root, p, n);
      assert p[..n] == PathOf(va)[..n];
    }
    TablesAbove(mem, root, p, 3);
    assert p[..3] == p;
    assert NewTables(mem, root, start, va, 1) == 0;
    assert NewTables(mem, root, start, va, 2) == 0;
  }

  /** The layer of an ELF process begins with its code page, so its first allocation puts a fresh frame
      in place of the code. */
  method FirstElfAllocation(mm: MemoryManager, pid: nat, ghost tables: set<nat>, ghost code: nat) returns (r: int)
    requires mm.Space(pid, tables, map[]) && mm.pcbs[pid].live && mm.pcbs[pid].layerSize >= FRAME
    requires mm.pcbs[pid].nextFree == mm.pcbs[pid].layerBase && code in mm.pool.held
    requires Walk(mm.pool.mem, Addr(mm.pcbs[pid].pml4), PathOf(mm.pcbs[pid].layerBase)) == Page(code, true, true)
    requires Walk(mm.pool.mem, Addr(mm.pcbs[pid].pml4), PathOf(mm.pcbs[pid].layerBase)[..3]).Table?
    modifies mm`tracked, mm.pool, mm.pcbs
    ensures mm.Valid() && mm.pcbs[pid].pml4 == old(mm.pcbs[pid]).pml4
    ensures mm.pcbs[pid].layerBase == old(mm.pcbs[pid]).layerBase
    ensures r >= 0 <==> old(mm.pool.Available()) > 0
    ensures r >= 0 ==>
      var a := Walk(mm.pool.mem, Addr(mm.pcbs[pid].pml4), PathOf(mm.pcbs[pid].layerBase));
      a.Page? && a.writable && a.user && a.frame != code && ZeroBehind(mm.pool.mem, a.frame)
  {
    hide Walk, PathOf, Addr, Tree, Covers, FramePool.Valid, Granted, Besides, AllHeld, Unshared, SameOutside;
    hide TablesRemain, Taken, ZeroBehind, WritableLayer, FramesNeeded, ClearRange;
    ghost var backing, t;
    ghost var base := mm.pcbs[pid].layerBase;
    PagesOnly(mm.pool.mem, Addr(mm.pcbs[pid].pml4), base, base + FRAME);
    r, t, backing := mm.MemoryAllocate(pid, FRAME, tables, map[]);
    assert r >= 0 ==> base in backing;
  }
}
