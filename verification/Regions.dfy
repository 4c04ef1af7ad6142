/** Ranges of a process's addresses: what it means that they are mapped, what mapping one page more
    keeps, and how many frames a range needs. */
module Regions {
  import opened Frames
  import opened PageTables
  import opened PageMapping

  /** The end of the lower half of the address space. */
  const USER_LIMIT := 0x8000_0000_0000

  datatype Pcb = Pcb(live: bool, pml4: nat, layerBase: nat, layerSize: nat, nextFree: nat, framesHead: nat)

  // ----- Tracked frames -----

  ghost predicate AllHeld(tracked: seq<seq<nat>>, held: set<nat>) {
    forall p, i :: 0 <= p < |tracked| && 0 <= i < |tracked[p]| ==> tracked[p][i] in held
  }

  /** No frame is tracked twice, by one process or by two. */
  ghost predicate Unshared(tracked: seq<seq<nat>>) {
    forall p, q, i, j ::
      0 <= p < |tracked| && 0 <= q < |tracked| && 0 <= i < |tracked[p]| && 0 <= j < |tracked[q]| ==>
        (tracked[p][i] == tracked[q][j] ==> p == q && i == j)
  }

  ghost predicate Untracked(tracked: seq<seq<nat>>, f: nat) {
    forall p :: 0 <= p < |tracked| ==> f !in tracked[p]
  }

  ghost predicate NoTables(tracked: seq<seq<nat>>, tables: set<nat>) {
    forall p, i :: 0 <= p < |tracked| && 0 <= i < |tracked[p]| ==> tracked[p][i] !in tables
  }

  // ----- Address spaces -----

  /** What the memory manager knows at one moment. */
  datatype Moment = Moment(
    mem: Memory, base: nat, end: nat, held: set<nat>, available: nat, pcbs: seq<Pcb>, tracked: seq<seq<nat>>)

  /** A range of addresses of process `pid`, from `lo` to `top`, whose pages below `hi` are mapped as
      `backing` says, in the tree of `tables` with this root. */
  datatype Region = Region(
    pid: nat, root: nat, lo: nat, hi: nat, top: nat, tables: set<nat>, backing: map<nat, nat>)

  /** No existing table on the way to a page of the range withholds write permission. */
  ghost predicate WritableLayer(mem: Memory, root: nat, lo: nat, hi: nat) {
    forall va: nat :: lo <= va < hi ==> Granted(mem, root, PathOf(va)[..3])
  }

  /** The keys are the pages from `lo` to `hi`. */
  ghost predicate Pages(backing: map<nat, nat>, lo: nat, hi: nat) {
    forall va: nat :: va in backing <==> va % FRAME == 0 && lo <= va < hi
  }

  /** Each page is mapped, user-writable, to a frame of its own that the process tracks. */
  ghost predicate Mapping(mem: Memory, root: nat, frames: seq<nat>, backing: map<nat, nat>, lo: nat, hi: nat) {
    && Pages(backing, lo, hi)
    && (forall va: nat :: va in backing ==>
          Walk(mem, root, PathOf(va)) == Page(backing[va], true, true) && backing[va] in frames)
    && (forall v: nat, w: nat :: v in backing && w in backing && backing[v] == backing[w] ==> v == w)
  }

  ghost predicate TablesHeld(m: Moment, tables: set<nat>) {
    forall t: nat :: t in tables && Within(m.base, m.end, t) ==> t in m.held
  }

  predicate Aligned(r: Region) {
    r.lo % FRAME == 0 && r.hi % FRAME == 0 && r.lo <= r.hi <= r.top <= USER_LIMIT
  }

  /** The region is in order: its tables form a tree and cannot be allocated again, no tracked frame is
      a table, and its pages are mapped. */
  ghost predicate InOrder(m: Moment, r: Region) {
    && r.pid < |m.tracked| && Aligned(r)
    && Tree(m.mem, r.root) && Covers(m.mem, r.root, r.tables) && TablesHeld(m, r.tables)
    && NoTables(m.tracked, r.tables) && WritableLayer(m.mem, r.root, r.lo, r.top)
    && Mapping(m.mem, r.root, m.tracked[r.pid], r.backing, r.lo, r.hi)
  }

  ghost predicate Owned(m: Moment) {
    |m.tracked| == |m.pcbs| && AllHeld(m.tracked, m.held) && Unshared(m.tracked)
  }

  /** The frames taken are the new tables and the newly listed ones, and no frame has left the list. */
  ghost predicate Taken(h0: set<nat>, h1: set<nat>, l0: seq<nat>, l1: seq<nat>, t0: set<nat>, t1: set<nat>) {
    && h0 <= h1 && t0 <= t1
    && (forall t: nat :: t in t1 && t !in t0 ==> t in h1 && t !in h0)
    && (forall f: nat :: f in l1 ==> f in l0 || f !in h0)
    && (forall f: nat :: f in l0 ==> f in l1)
    && (forall f: nat :: f in h1 ==> f in h0 || (f in t1 && f !in t0) || f in l1)
  }

  /** From `b0` to `b1` frames were taken for `pid` and for new tables; everything else is as before. */
  ghost predicate Kept(b0: Moment, b1: Moment, pid: nat, t0: set<nat>, t1: set<nat>) {
    && b1.base == b0.base && b1.end == b0.end
    && pid < |b0.pcbs| == |b1.pcbs| == |b0.tracked| == |b1.tracked|
    && Taken(b0.held, b1.held, b0.tracked[pid], b1.tracked[pid], t0, t1)
    && b1.pcbs[pid] == b0.pcbs[pid].(framesHead := b1.pcbs[pid].framesHead)
    && (forall q :: 0 <= q < |b0.pcbs| && q != pid ==> b1.pcbs[q] == b0.pcbs[q])
    && (forall q :: 0 <= q < |b0.tracked| && q != pid ==> b1.tracked[q] == b0.tracked[q])
    && SameFrames(b0, b1, t1)
  }

  /** Memory that was in use, and is not a table, is untouched. */
  ghost predicate SameFrames(b0: Moment, b1: Moment, tables: set<nat>) {
    forall f: nat :: f in b0.mem && f !in tables && (Within(b0.base, b0.end, f) ==> f in b0.held) ==>
      f in b1.mem && b1.mem[f] == b0.mem[f]
  }

  ghost predicate LinkedIn(b: Moment, q: nat) {
    q < |b.pcbs| && q < |b.tracked| && Linked(b.mem, b.pcbs[q].framesHead, b.tracked[q])
  }

  /** Lists that were intact are intact. */
  ghost predicate LinksKept(b0: Moment, b1: Moment) {
    forall q: nat :: LinkedIn(b0, q) ==> LinkedIn(b1, q)
  }

  /** Old pages keep their frames; new ones lie from `start` on and have frames that were not held. */
  ghost predicate Extends(backing: map<nat, nat>, backing': map<nat, nat>, start: nat, held: set<nat>) {
    && (forall va: nat :: va in backing ==> va in backing' && backing'[va] == backing[va])
    && (forall va: nat :: va in backing' && va !in backing ==> start <= va && backing'[va] !in held)
  }

  /** Pages outside the range keep their translation and rights. */
  ghost predicate SameOutside(mem: Memory, mem': Memory, root: nat, start: nat, end: nat) {
    forall q :: IsPath(q) && |q| == 4 && OutsideRange(q, start, end) ==> Walk(mem', root, q) == Walk(mem, root, q)
  }

  ghost predicate OutsideRange(q: seq<nat>, start: nat, end: nat) {
    forall v: nat :: start <= v < end ==> PathOf(v) != q
  }

  // ----- How many frames a range needs -----

  /** The page's path shares its first `n` tables with the page before it in the range. */
  predicate Shared(start: nat, va: nat, n: nat)
    requires n <= 3
  {
    va >= start + FRAME && PathOf(va - FRAME)[..n] == PathOf(va)[..n]
  }

  /** Tables among the first `n` on the path of `va` that exist neither in `mem` nor for the pages from
      `start` to `va`. */
  function NewTables(mem: Memory, root: nat, start: nat, va: nat, n: nat): nat
    requires n <= 3
  {
    if n == 0 then 0
    else
      NewTables(mem, root, start, va, n - 1) +
      (if Walk(mem, root, PathOf(va)[..n]).Table? || Shared(start, va, n) then 0 else 1)
  }

  /** Frames for the pages from `start` to `end` and for the tables that are missing on their paths. */
  function FramesNeeded(mem: Memory, root: nat, start: nat, end: nat): nat
    decreases end
  {
    if end < start + FRAME then 0
    else FramesNeeded(mem, root, start, end - FRAME) + 1 + NewTables(mem, root, start, end - FRAME, 3)
  }

  /** No large page stands in the way of the range. */
  ghost predicate ClearRange(mem: Memory, root: nat, start: nat, end: nat) {
    forall va: nat :: start <= va < end ==> !Obstructed(mem, root, PathOf(va)[..3])
  }

  /** The tables that exist are the old ones and those on the paths of the pages from `start` to `va`. */
  ghost predicate OpenedFor(mem: Memory, mem': Memory, root: nat, start: nat, va: nat) {
    forall q :: IsPath(q) && |q| <= 3 ==>
      (Walk(mem', root, q).Table? <==> Walk(mem, root, q).Table? || Touched(start, va, q))
  }

  ghost predicate Touched(start: nat, va: nat, q: seq<nat>) {
    exists v: nat :: start <= v < va && q <= PathOf(v)
  }

  // ----- Paths of neighbouring pages -----

  lemma SamePagePath(v: nat, w: nat)
    requires v / FRAME == w / FRAME
    ensures PathOf(v) == PathOf(w)
  {
    SpansOfPage(v);
    SpansOfPage(w);
  }

  /** An entry's span is a whole number of pages. */
  lemma SpansOfPage(v: nat)
    ensures v / Span(0) == v / FRAME / 0x800_0000 && v / Span(1) == v / FRAME / 0x4_0000
    ensures v / Span(2) == v / FRAME / 512
  {
    assert v / Span(2) == v / FRAME / 512;
    assert v / Span(1) == v / Span(2) / 512;
    assert v / Span(0) == v / Span(1) / 512;
  }

  /** The first indices of a path are the digits of a number. */
  lemma PathDigits(v: nat)
    requires v < 0x1_0000_0000_0000
    ensures var p := PathOf(v);
            && v / Span(0) == p[0] && v / Span(1) == 512 * (v / Span(0)) + p[1]
            && v / Span(2) == 512 * (v / Span(1)) + p[2]
  {
    assert v / Span(1) / 512 == v / Span(0) && v / Span(2) / 512 == v / Span(1);
  }

  lemma PrefixNumber(v: nat, w: nat, n: nat)
    requires v < 0x1_0000_0000_0000 && w < 0x1_0000_0000_0000 && 1 <= n <= 3
    ensures PathOf(v)[..n] == PathOf(w)[..n] <==> v / Span(n - 1) == w / Span(n - 1)
  {
    PathDigits(v);
    PathDigits(w);
    hide PathOf, Span;
    var p, q := PathOf(v), PathOf(w);
    assert p[..n] == q[..n] <==> p[0] == q[0] && (n >= 2 ==> p[1] == q[1]) && (n >= 3 ==> p[2] == q[2]) by {
      PrefixIs(p, q, n);
    }
  }

  lemma PrefixIs(p: seq<nat>, q: seq<nat>, n: nat)
    requires 1 <= n <= 3 && |p| == 4 && |q| == 4
    ensures p[..n] == q[..n] <==> p[0] == q[0] && (n >= 2 ==> p[1] == q[1]) && (n >= 3 ==> p[2] == q[2])
  {
    if p[..n] == q[..n] {
      assert p[0] == p[..n][0] == q[..n][0] == q[0];
      assert n >= 2 ==> p[1] == p[..n][1] == q[..n][1] == q[1];
      assert n >= 3 ==> p[2] == p[..n][2] == q[..n][2] == q[2];
    }
  }

  lemma DivMonotone(a: nat, b: nat, d: nat)
    requires d > 0 && a <= b
    ensures a / d <= b / d
  {
    var e := a / d - b / d;
    assert e * d == a - b - a % d + b % d;
    assert e >= 1 ==> e * d >= d;
  }

  lemma Between(v: nat, u: nat, w: nat, d: nat)
    requires d > 0 && v <= u <= w && v / d == w / d
    ensures u / d == w / d
  {
    DivMonotone(v, u, d);
    DivMonotone(u, w, d);
  }

  /** A table on the path of `va` serves an earlier page of the range iff it serves the one before. */
  lemma TouchedIsShared(start: nat, va: nat, n: nat)
    requires start % FRAME == 0 && va % FRAME == 0 && start <= va < USER_LIMIT && 1 <= n <= 3
    ensures Touched(start, va, PathOf(va)[..n]) <==> Shared(start, va, n)
  {
    hide PathOf;
    var q := PathOf(va)[..n];
    if Shared(start, va, n) {
      assert q <= PathOf(va - FRAME);
    }
    if Touched(start, va, q) {
      var v: nat :| start <= v < va && q <= PathOf(v);
      assert PathOf(v)[..n] == q;
      LastSharer(v, va, n);
    }
  }

  /** Of the pages before `va`, the last shares most of its path. */
  lemma LastSharer(v: nat, va: nat, n: nat)
    requires va % FRAME == 0 && v < va < USER_LIMIT && 1 <= n <= 3 && PathOf(v)[..n] == PathOf(va)[..n]
    ensures va >= FRAME && PathOf(va - FRAME)[..n] == PathOf(va)[..n]
  {
    hide PathOf, Span;
    var u := va - FRAME;
    if v <= u {
      PrefixNumber(v, va, n);
      PrefixNumber(u, va, n);
      Between(v, u, va, Span(n - 1));
    } else {
      SamePagePath(v, u);
    }
  }

  lemma TouchedMore(start: nat, va: nat, q: seq<nat>)
    requires start % FRAME == 0 && va % FRAME == 0 && start <= va && |q| <= 3
    ensures Touched(start, va + FRAME, q) <==> Touched(start, va, q) || q <= PathOf(va)[..3]
  {
    hide PathOf;
    assert q <= PathOf(va) <==> q <= PathOf(va)[..3];
    if Touched(start, va + FRAME, q) {
      var v: nat :| start <= v < va + FRAME && q <= PathOf(v);
      if v >= va { SamePagePath(v, va); }
    }
  }

  /** The tables missing for the next page, counted in the memory before the range was mapped. */
  lemma {:induction false} NewIsMissing(mem: Memory, mem': Memory, root: nat, start: nat, va: nat, n: nat)
    requires OpenedFor(mem, mem', root, start, va) && n <= 3
    requires start % FRAME == 0 && va % FRAME == 0 && start <= va < USER_LIMIT
    ensures Missing(mem', root, PathOf(va)[..3], n) == NewTables(mem, root, start, va, n)
    decreases n
  {
    hide PathOf, Walk, Shared, Touched;
    if n > 0 {
      NewIsMissing(mem, mem', root, start, va, n - 1);
      TouchedIsShared(start, va, n);
      assert PathOf(va)[..3][..n] == PathOf(va)[..n] && IsPath(PathOf(va)[..n]);
    }
  }

  lemma OpenedMore(mem: Memory, mem1: Memory, mem2: Memory, root: nat, start: nat, va: nat)
    requires start % FRAME == 0 && va % FRAME == 0 && start <= va
    requires OpenedFor(mem, mem1, root, start, va) && OpensUpTo(mem1, mem2, root, PathOf(va)[..3], 3)
    ensures OpenedFor(mem, mem2, root, start, va + FRAME)
  {
    hide PathOf, Walk, Touched;
    forall q | IsPath(q) && |q| <= 3
      ensures Walk(mem2, root, q).Table? <==> Walk(mem, root, q).Table? || Touched(start, va + FRAME, q)
    {
      TouchedMore(start, va, q);
    }
  }

  lemma OpenedNone(mem: Memory, root: nat, start: nat)
    ensures OpenedFor(mem, mem, root, start, start)
  {
  }

  lemma NeededMore(mem: Memory, root: nat, start: nat, va: nat)
    requires start <= va
    ensures FramesNeeded(mem, root, start, va + FRAME) ==
      FramesNeeded(mem, root, start, va) + 1 + NewTables(mem, root, start, va, 3)
  {
    hide NewTables;
  }

  /** Tables that exist after part of the range was mapped count as those of the whole range. */
  lemma {:induction false} NewSplit(mem: Memory, mem': Memory, root: nat, start: nat, mid: nat, va: nat, n: nat)
    requires OpenedFor(mem, mem', root, start, mid) && n <= 3
    requires start % FRAME == 0 && mid % FRAME == 0 && va % FRAME == 0 && start <= mid <= va < USER_LIMIT
    ensures NewTables(mem', root, mid, va, n) == NewTables(mem, root, start, va, n)
    decreases n
  {
    hide PathOf, Walk, Shared, Touched;
    if n > 0 {
      NewSplit(mem, mem', root, start, mid, va, n - 1);
      TouchedIsShared(start, va, n);
      TouchedIsShared(mid, va, n);
      TouchedSplit(start, mid, va, PathOf(va)[..n]);
      assert IsPath(PathOf(va)[..n]);
    }
  }

  lemma TouchedSplit(start: nat, mid: nat, va: nat, q: seq<nat>)
    requires start <= mid <= va
    ensures Touched(start, va, q) <==> Touched(start, mid, q) || Touched(mid, va, q)
  {
    hide PathOf;
  }

  /** Mapping a range in two parts takes as many frames as mapping it at once. */
  lemma {:induction false} NeededSplit(mem: Memory, mem': Memory, root: nat, start: nat, mid: nat, end: nat)
    requires OpenedFor(mem, mem', root, start, mid)
    requires start % FRAME == 0 && mid % FRAME == 0 && end % FRAME == 0 && start <= mid <= end <= USER_LIMIT
    ensures FramesNeeded(mem, root, start, end) ==
      FramesNeeded(mem, root, start, mid) + FramesNeeded(mem', root, mid, end)
    decreases end
  {
    hide NewTables, OpenedFor, FramesNeeded;
    if end == mid {
      NeededNone(mem', root, mid);
    } else {
      NeededSplit(mem, mem', root, start, mid, end - FRAME);
      NeededMore(mem, root, start, end - FRAME);
      NeededMore(mem', root, mid, end - FRAME);
      NewSplit(mem, mem', root, start, mid, end - FRAME, 3);
    }
  }

  lemma NeededNone(mem: Memory, root: nat, start: nat)
    ensures FramesNeeded(mem, root, start, start) == 0
  {
  }

  lemma OpenedTwice(mem: Memory, mem1: Memory, mem2: Memory, root: nat, start: nat, mid: nat, end: nat)
    requires OpenedFor(mem, mem1, root, start, mid) && OpenedFor(mem1, mem2, root, mid, end) && start <= mid <= end
    ensures OpenedFor(mem, mem2, root, start, end)
  {
    hide Walk, Touched;
    forall q ensures Touched(start, end, q) <==> Touched(start, mid, q) || Touched(mid, end, q) {
      TouchedSplit(start, mid, end, q);
    }
  }

  lemma {:induction false} NeededGrows(mem: Memory, root: nat, start: nat, va: nat, end: nat)
    requires va <= end && (end - va) % FRAME == 0
    ensures FramesNeeded(mem, root, start, va) <= FramesNeeded(mem, root, start, end)
    decreases end
  {
    hide NewTables;
    if va < end && end >= start + FRAME {
      NeededGrows(mem, root, start, va, end - FRAME);
    }
  }

  // ----- One page -----

  /** The frame is zero but for its first word, where the list of tracked frames has its link. */
  ghost predicate ZeroBehind(mem: Memory, f: nat) {
    HasFrame(mem, f) && forall i :: 1 <= i < WORDS_PER_FRAME ==> mem[f][i] == 0
  }

  lemma ZeroedBehind(mem: Memory, f: nat, link: nat)
    requires f in mem && mem[f] == Zeroed()
    ensures ZeroBehind(SetWord(mem, f, 0, link), f)
  {
  }

  /** New pages are zero but for their first words. */
  ghost predicate FreshPages(mem: Memory, backing: map<nat, nat>, backing': map<nat, nat>) {
    forall va: nat :: va in backing' && va !in backing ==> ZeroBehind(mem, backing'[va])
  }

  /** A fresh frame is tracked and no page has changed. */
  ghost predicate Grabbed(b0: Moment, b1: Moment, r: Region, f: nat) {
    && Kept(b0, b1, r.pid, r.tables, r.tables) && LinksKept(b0, b1) && b1.available + 1 == b0.available
    && (forall q :: IsPath(q) ==> Walk(b1.mem, r.root, q) == Walk(b0.mem, r.root, q))
    && SameOutlook(b0.mem, b1.mem, r.root)
    && f !in b0.held && f in b1.tracked[r.pid] && Addr(f) == f && ZeroBehind(b1.mem, f)
    && |b1.tracked[r.pid]| == |b0.tracked[r.pid]| + 1
    && (forall v: nat :: v in r.backing ==> r.backing[v] != f)
  }

  /** What `map_page` does to a region. */
  ghost predicate Mapped(b0: Moment, b1: Moment, r: Region, tables: set<nat>, f: nat, ok: bool) {
    && Kept(b0, b1, r.pid, r.tables, tables) && LinksKept(b0, b1) && b1.tracked == b0.tracked
    && Tree(b1.mem, r.root) && Covers(b1.mem, r.root, tables) && TablesHeld(b1, tables)
    && SameOutlook(b0.mem, b1.mem, r.root)
    && (ok ==> Walk(b1.mem, r.root, PathOf(r.hi)) == Page(f, Granted(b0.mem, r.root, PathOf(r.hi)[..3]), true))
    && (forall q :: IsPath(q) && |q| == 4 && !(ok && q == PathOf(r.hi)) ==>
         Walk(b1.mem, r.root, q) == Walk(b0.mem, r.root, q))
  }

  /** One page of the region has been mapped, or not. */
  ghost predicate Stepped(b0: Moment, b1: Moment, r: Region, r': Region, ok: bool) {
    && InOrder(b1, r') && Kept(b0, b1, r.pid, r.tables, r'.tables) && LinksKept(b0, b1)
    && SameOutlook(b0.mem, b1.mem, r.root) && SameOutside(b0.mem, b1.mem, r.root, r.hi, r.hi + FRAME)
    && (if ok then
          && r.hi in r'.backing && r'.backing[r.hi] !in b0.held && ZeroBehind(b1.mem, r'.backing[r.hi])
          && r' == r.(tables := r'.tables, hi := r.hi + FRAME, backing := r.backing[r.hi := r'.backing[r.hi]])
          && OpensUpTo(b0.mem, b1.mem, r.root, PathOf(r.hi)[..3], 3)
          && b1.available + 1 + Missing(b0.mem, r.root, PathOf(r.hi)[..3], 3) == b0.available
          && |b1.tracked[r.pid]| == |b0.tracked[r.pid]| + 1
        else r' == r.(tables := r'.tables))
    && (ok <==>
          !Obstructed(b0.mem, r.root, PathOf(r.hi)[..3]) &&
          1 + Missing(b0.mem, r.root, PathOf(r.hi)[..3], 3) <= b0.available)
  }

  // ----- What a step keeps -----

  /** A new frame at the head of a list that nobody has tracked before. */
  lemma TrackedMore(b0: Moment, b1: Moment, r: Region, f: nat)
    requires InOrder(b0, r) && Owned(b0) && f !in b0.held && f !in r.tables && r.pid < |b0.tracked|
    requires b0.held <= b1.held && b1.base == b0.base && b1.end == b0.end
    requires b1.tracked == b0.tracked[r.pid := [f] + b0.tracked[r.pid]]
    requires forall q :: IsPath(q) ==> Walk(b1.mem, r.root, q) == Walk(b0.mem, r.root, q)
    requires SameOutlook(b0.mem, b1.mem, r.root) && Tree(b1.mem, r.root) && Covers(b1.mem, r.root, r.tables)
    ensures InOrder(b1, r) && forall v: nat :: v in r.backing ==> r.backing[v] != f
  {
    hide Walk, PathOf, Tree, Covers, SameOutlook, Granted, Unshared, Pages;
    LayerKept(b0.mem, b1.mem, r.root, r.lo, r.top);
  }

  lemma LayerKept(mem: Memory, mem': Memory, root: nat, lo: nat, hi: nat)
    requires WritableLayer(mem, root, lo, hi) && SameOutlook(mem, mem', root)
    ensures WritableLayer(mem', root, lo, hi)
  {
    hide Granted, Obstructed, PathOf;
    forall va: nat | lo <= va < hi ensures Granted(mem', root, PathOf(va)[..3]) {
      assert IsPath(PathOf(va)[..3]);
    }
  }

  lemma MappingKept(mem: Memory, mem': Memory, root: nat, frames: seq<nat>, backing: map<nat, nat>, lo: nat, hi: nat)
    requires Mapping(mem, root, frames, backing, lo, hi)
    requires forall q :: IsPath(q) && |q| == 4 ==> Walk(mem', root, q) == Walk(mem, root, q)
    ensures Mapping(mem', root, frames, backing, lo, hi)
  {
    hide Walk, PathOf, Pages;
  }

  lemma MappingGrows(mem: Memory, mem': Memory, root: nat, frames: seq<nat>, backing: map<nat, nat>, lo: nat, hi: nat,
                     f: nat)
    requires Mapping(mem, root, frames, backing, lo, hi) && lo <= hi < USER_LIMIT && hi % FRAME == 0 && lo % FRAME == 0
    requires f in frames && forall v: nat :: v in backing ==> backing[v] != f
    requires forall q :: IsPath(q) && |q| == 4 && q != PathOf(hi) ==> Walk(mem', root, q) == Walk(mem, root, q)
    requires Walk(mem', root, PathOf(hi)) == Page(f, true, true)
    ensures Mapping(mem', root, frames, backing[hi := f], lo, hi + FRAME)
  {
    hide Walk, PathOf;
    forall v: nat | v in backing ensures PathOf(v) != PathOf(hi) {
      if PathOf(v) == PathOf(hi) { PathOfInjective(v, hi); }
    }
  }

  /** The earlier part of a mapping is a mapping. */
  lemma MappingRestrict(mem: Memory, root: nat, frames: seq<nat>, backing: map<nat, nat>, part: map<nat, nat>, lo: nat,
                        hi: nat, limit: nat)
    requires Mapping(mem, root, frames, backing, lo, hi) && limit <= hi && Pages(part, lo, limit)
    requires forall v: nat :: v in part ==> v in backing && backing[v] == part[v]
    ensures Mapping(mem, root, frames, part, lo, limit)
  {
    hide Walk, PathOf, Pages;
  }

  lemma KeptTrans(b0: Moment, b1: Moment, b2: Moment, pid: nat, t0: set<nat>, t1: set<nat>, t2: set<nat>)
    requires Kept(b0, b1, pid, t0, t1) && Kept(b1, b2, pid, t1, t2)
    ensures Kept(b0, b2, pid, t0, t2)
  {
    hide SameFrames;
    assert SameFrames(b0, b2, t2) by { FramesTrans(b0, b1, b2, t1, t2); }
  }

  lemma FramesTrans(b0: Moment, b1: Moment, b2: Moment, t1: set<nat>, t2: set<nat>)
    requires SameFrames(b0, b1, t1) && SameFrames(b1, b2, t2) && t1 <= t2
    requires b0.held <= b1.held && b1.base == b0.base && b1.end == b0.end
    ensures SameFrames(b0, b2, t2)
  {
  }

  lemma LinksTrans(b0: Moment, b1: Moment, b2: Moment)
    requires LinksKept(b0, b1) && LinksKept(b1, b2)
    ensures LinksKept(b0, b2)
  {
    hide LinkedIn;
  }

  lemma OutlookTrans(m0: Memory, m1: Memory, m2: Memory, root: nat)
    requires SameOutlook(m0, m1, root) && SameOutlook(m1, m2, root)
    ensures SameOutlook(m0, m2, root)
  {
    hide Granted, Obstructed;
  }

  /** Tracked frames are not tables, also not new ones. */
  lemma TablesApart(b0: Moment, b1: Moment, pid: nat, t0: set<nat>, t1: set<nat>)
    requires Kept(b0, b1, pid, t0, t1) && b1.tracked == b0.tracked && AllHeld(b0.tracked, b0.held)
    requires NoTables(b0.tracked, t0)
    ensures AllHeld(b1.tracked, b1.held) && NoTables(b1.tracked, t1)
  {
    hide SameFrames;
  }

  lemma LayerAt(mem: Memory, root: nat, lo: nat, hi: nat, va: nat)
    requires WritableLayer(mem, root, lo, hi) && lo <= va < hi
    ensures Granted(mem, root, PathOf(va)[..3])
  {
  }

  /** The region after the step. */
  function Next(r: Region, tables: set<nat>, f: nat, ok: bool): Region {
    if ok then r.(tables := tables, hi := r.hi + FRAME, backing := r.backing[r.hi := f]) else r.(tables := tables)
  }

  lemma StepInOrder(b1: Moment, b2: Moment, r: Region, tables: set<nat>, f: nat, ok: bool)
    requires InOrder(b1, r) && Owned(b1) && Mapped(b1, b2, r, tables, f, ok) && r.hi + FRAME <= r.top
    requires f in b1.tracked[r.pid] && forall v: nat :: v in r.backing ==> r.backing[v] != f
    ensures InOrder(b2, Next(r, tables, f, ok)) && Owned(b2)
  {
    hide Walk, PathOf, Tree, Covers, Granted, SameOutlook, Mapping, SameFrames, NoTables, Unshared, AllHeld;
    hide WritableLayer;
    TablesApart(b1, b2, r.pid, r.tables, tables);
    LayerKept(b1.mem, b2.mem, r.root, r.lo, r.top);
    LayerAt(b1.mem, r.root, r.lo, r.top, r.hi);
    if ok {
      MappingGrows(b1.mem, b2.mem, r.root, b1.tracked[r.pid], r.backing, r.lo, r.hi, f);
    } else {
      MappingKept(b1.mem, b2.mem, r.root, b1.tracked[r.pid], r.backing, r.lo, r.hi);
    }
  }

  /** Tables are counted alike before and after a change that left all walks alone. */
  lemma {:induction false} MissingSame(m0: Memory, m1: Memory, root: nat, path: seq<nat>, n: nat)
    requires IsPath(path) && n <= |path| && forall q :: IsPath(q) ==> Walk(m1, root, q) == Walk(m0, root, q)
    ensures Missing(m1, root, path, n) == Missing(m0, root, path, n)
    decreases n
  {
    hide Walk;
    if n > 0 {
      MissingSame(m0, m1, root, path, n - 1);
      assert IsPath(path[..n]);
    }
  }

  lemma OpensFrom(m0: Memory, m1: Memory, m2: Memory, root: nat, path: seq<nat>)
    requires forall q :: IsPath(q) ==> Walk(m1, root, q) == Walk(m0, root, q)
    requires OpensUpTo(m1, m2, root, path, 3)
    ensures OpensUpTo(m0, m2, root, path, 3)
  {
    hide Walk;
  }

  lemma OutsideOne(m0: Memory, m1: Memory, m2: Memory, root: nat, va: nat, ok: bool)
    requires forall q :: IsPath(q) ==> Walk(m1, root, q) == Walk(m0, root, q)
    requires forall q :: IsPath(q) && |q| == 4 && !(ok && q == PathOf(va)) ==> Walk(m2, root, q) == Walk(m1, root, q)
    ensures SameOutside(m0, m2, root, va, va + FRAME)
  {
    hide Walk, PathOf;
  }

  /** Allocation, tracking and mapping make one step. */
  lemma StepDone(b0: Moment, b1: Moment, b2: Moment, r: Region, tables: set<nat>, f: nat, ok: bool)
    requires InOrder(b1, r) && Owned(b1) && Grabbed(b0, b1, r, f) && Mapped(b1, b2, r, tables, f, ok)
    requires r.hi + FRAME <= r.top
    requires ok <==>
      !Obstructed(b1.mem, r.root, PathOf(r.hi)[..3]) && Missing(b1.mem, r.root, PathOf(r.hi)[..3], 3) <= b1.available
    requires ok ==>
      && OpensUpTo(b1.mem, b2.mem, r.root, PathOf(r.hi)[..3], 3)
      && b2.available + Missing(b1.mem, r.root, PathOf(r.hi)[..3], 3) == b1.available
    ensures Stepped(b0, b2, r, Next(r, tables, f, ok), ok) && Owned(b2)
  {
    hide Walk, PathOf, Tree, Covers, Granted, Obstructed, Missing, InOrder, SameFrames, LinkedIn, OpensUpTo;
    hide SameOutlook, Kept, Owned, LinksKept, SameOutside;
    var path := PathOf(r.hi)[..3];
    TrackedApart(b1, r);
    StepInOrder(b1, b2, r, tables, f, ok);
    KeptTrans(b0, b1, b2, r.pid, r.tables, r.tables, tables);
    LinksTrans(b0, b1, b2);
    OutlookTrans(b0.mem, b1.mem, b2.mem, r.root);
    OutlookAt(b0.mem, b1.mem, r.root, path);
    OutsideOne(b0.mem, b1.mem, b2.mem, r.root, r.hi, ok);
    MissingSame(b0.mem, b1.mem, r.root, path, 3);
    StillZero(b1, b2, r, tables, f);
    if ok { OpensFrom(b0.mem, b1.mem, b2.mem, r.root, path); }
  }

  /** Mapping does not touch the frames that are tracked. */
  lemma StillZero(b1: Moment, b2: Moment, r: Region, tables: set<nat>, f: nat)
    requires Kept(b1, b2, r.pid, r.tables, tables) && Owned(b1) && NoTables(b1.tracked, r.tables)
    requires f in b1.tracked[r.pid]
    ensures ZeroBehind(b1.mem, f) ==> ZeroBehind(b2.mem, f)
  {
    hide Unshared;
    assert f in b1.held && f !in r.tables;
  }

  lemma TrackedApart(b: Moment, r: Region)
    requires InOrder(b, r)
    ensures NoTables(b.tracked, r.tables) && r.pid < |b.tracked|
  {
  }

  // ----- Many pages -----

  /** The pages from `r0.hi` to `r.hi` have been mapped, and nothing else. */
  ghost predicate Progress(b0: Moment, b: Moment, r0: Region, r: Region) {
    && InOrder(b, r) && r == r0.(hi := r.hi, tables := r.tables, backing := r.backing) && r0.hi <= r.hi && Aligned(r0)
    && Kept(b0, b, r.pid, r0.tables, r.tables) && SameOutlook(b0.mem, b.mem, r.root)
    && Extends(r0.backing, r.backing, r0.hi, b0.held) && Pages(r0.backing, r0.lo, r0.hi)
    && SameOutside(b0.mem, b.mem, r.root, r0.hi, r.hi) && OpenedFor(b0.mem, b.mem, r.root, r0.hi, r.hi)
    && ClearRange(b0.mem, r.root, r0.hi, r.hi)
    && b.available + FramesNeeded(b0.mem, r.root, r0.hi, r.hi) == b0.available
    && FRAME * |b.tracked[r.pid]| == FRAME * |b0.tracked[r.pid]| + r.hi - r0.hi
  }

  /** The pages up to `end` could not all be mapped; those mapped before are as they were. */
  ghost predicate GaveUp(b0: Moment, b: Moment, r0: Region, tables: set<nat>, end: nat) {
    && InOrder(b, r0.(tables := tables)) && Kept(b0, b, r0.pid, r0.tables, tables)
    && SameOutside(b0.mem, b.mem, r0.root, r0.hi, end) && SameOutlook(b0.mem, b.mem, r0.root)
    && !(ClearRange(b0.mem, r0.root, r0.hi, end) && FramesNeeded(b0.mem, r0.root, r0.hi, end) <= b0.available)
  }

  lemma ProgressStart(b: Moment, r: Region)
    requires InOrder(b, r) && r.pid < |b.pcbs| && Owned(b)
    ensures Progress(b, b, r, r)
  {
    hide Walk, PathOf, Tree, Covers, Granted, NoTables, WritableLayer, AllHeld, Unshared, LinkedIn, Touched, OpenedFor;
    SameRefl(b.mem, r.root);
    OpenedNone(b.mem, r.root, r.hi);
  }

  lemma ProgressStep(b0: Moment, b1: Moment, b2: Moment, r0: Region, r1: Region, r2: Region)
    requires Progress(b0, b1, r0, r1) && Stepped(b1, b2, r1, r2, true)
    ensures Progress(b0, b2, r0, r2)
  {
    hide Walk, PathOf, Tree, Covers, Granted, Obstructed, Missing, InOrder, SameFrames, LinkedIn, OpensUpTo;
    hide SameOutlook, Kept;
    hide LinksKept, SameOutside, Extends, Pages, OpenedFor, ClearRange, FramesNeeded, NewTables;
    var va := r1.hi;
    AlignedIn(b1, r1);
    AlignedIn(b2, r2);
    KeptTrans(b0, b1, b2, r0.pid, r0.tables, r1.tables, r2.tables);
    OutlookTrans(b0.mem, b1.mem, b2.mem, r0.root);
    HeldGrows(b0, b1, r0.pid, r0.tables, r1.tables);
    ExtendsStep(b0, b1, r0, r1, r2);
    OutsideTrans(b0.mem, b1.mem, b2.mem, r0.root, r0.hi, va, va + FRAME);
    OpenedMore(b0.mem, b1.mem, b2.mem, r0.root, r0.hi, va);
    ClearMore(b0.mem, b1.mem, r0.root, r0.hi, va);
    NewIsMissing(b0.mem, b1.mem, r0.root, r0.hi, va, 3);
    NeededMore(b0.mem, r0.root, r0.hi, va);
  }

  lemma ProgressFails(b0: Moment, b1: Moment, b2: Moment, r0: Region, r1: Region, r2: Region, end: nat)
    requires Progress(b0, b1, r0, r1) && Stepped(b1, b2, r1, r2, false) && r1.hi < end <= r0.top && end % FRAME == 0
    ensures GaveUp(b0, b2, r0, r2.tables, end)
  {
    hide Walk, PathOf, Tree, Covers, Granted, Obstructed, Missing, SameFrames, LinkedIn, SameOutlook, Kept;
    hide LinksKept, SameOutside, Pages, OpenedFor, ClearRange, FramesNeeded, NewTables, Mapping, NoTables;
    hide WritableLayer, TablesHeld;
    var va := r1.hi;
    KeptTrans(b0, b1, b2, r0.pid, r0.tables, r1.tables, r2.tables);
    OutlookTrans(b0.mem, b1.mem, b2.mem, r0.root);
    MappingRestrict(b2.mem, r0.root, b2.tracked[r0.pid], r2.backing, r0.backing, r0.lo, va, r0.hi);
    OutsideTrans(b0.mem, b1.mem, b2.mem, r0.root, r0.hi, va, va + FRAME);
    OutsideMore(b0.mem, b2.mem, r0.root, r0.hi, va + FRAME, end);
    NewIsMissing(b0.mem, b1.mem, r0.root, r0.hi, va, 3);
    NeededMore(b0.mem, r0.root, r0.hi, va);
    NeededGrows(b0.mem, r0.root, r0.hi, va + FRAME, end);
    ObstructedIn(b0.mem, b1.mem, r0.root, r0.hi, va, end);
  }

  lemma AlignedIn(b: Moment, r: Region)
    requires InOrder(b, r)
    ensures Aligned(r) && Pages(r.backing, r.lo, r.hi) && r.hi !in r.backing
  {
    hide Walk, PathOf, Tree, Covers, Granted, NoTables, WritableLayer;
  }

  lemma HeldGrows(b0: Moment, b1: Moment, pid: nat, t0: set<nat>, t1: set<nat>)
    requires Kept(b0, b1, pid, t0, t1)
    ensures b0.held <= b1.held
  {
  }

  lemma ExtendsStep(b0: Moment, b1: Moment, r0: Region, r1: Region, r2: Region)
    requires Extends(r0.backing, r1.backing, r0.hi, b0.held) && b0.held <= b1.held && r0.hi <= r1.hi
    requires r1.hi in r2.backing && r2.backing[r1.hi] !in b1.held
    requires r2.backing == r1.backing[r1.hi := r2.backing[r1.hi]]
    requires r1.hi !in r1.backing
    ensures Extends(r0.backing, r2.backing, r0.hi, b0.held)
  {
  }

  lemma FreshStep(b0: Moment, b1: Moment, r0: Region, r1: Region, r2: Region)
    requires Stepped(b0, b1, r1, r2, true) && FreshPages(b0.mem, r0.backing, r1.backing) && InOrder(b0, r1) && Owned(b0)
    ensures FreshPages(b1.mem, r0.backing, r2.backing)
  {
    hide Walk, PathOf, Tree, Covers, Granted, Obstructed, Missing, WritableLayer, Unshared, Pages, LinkedIn;
    hide SameOutlook, ZeroBehind;
    forall va: nat | va in r2.backing && va !in r0.backing ensures ZeroBehind(b1.mem, r2.backing[va]) {
      if va != r1.hi {
        assert r1.backing[va] in b0.tracked[r1.pid];
        StillZeroStep(b0, b1, r1, r2, r1.backing[va]);
      }
    }
  }

  lemma StillZeroStep(b0: Moment, b1: Moment, r1: Region, r2: Region, f: nat)
    requires Kept(b0, b1, r1.pid, r1.tables, r2.tables) && Owned(b0) && NoTables(b0.tracked, r1.tables)
    requires f in b0.tracked[r1.pid]
    ensures ZeroBehind(b0.mem, f) ==> ZeroBehind(b1.mem, f)
  {
    StillZero(b0, b1, r1, r2.tables, f);
  }

  lemma OutsideTrans(m0: Memory, m1: Memory, m2: Memory, root: nat, start: nat, va: nat, end: nat)
    requires start <= va <= end && SameOutside(m0, m1, root, start, va) && SameOutside(m1, m2, root, va, end)
    ensures SameOutside(m0, m2, root, start, end)
  {
    hide Walk, PathOf;
  }

  lemma OutsideMore(m0: Memory, m1: Memory, root: nat, start: nat, va: nat, end: nat)
    requires start <= va <= end && SameOutside(m0, m1, root, start, va)
    ensures SameOutside(m0, m1, root, start, end)
  {
    hide Walk, PathOf;
  }

  lemma ClearMore(m0: Memory, m1: Memory, root: nat, start: nat, va: nat)
    requires ClearRange(m0, root, start, va) && SameOutlook(m0, m1, root) && va % FRAME == 0
    requires !Obstructed(m1, root, PathOf(va)[..3])
    ensures ClearRange(m0, root, start, va + FRAME)
  {
    hide Obstructed, PathOf, Granted;
    OutlookAt(m0, m1, root, PathOf(va)[..3]);
    forall v: nat | start <= v < va + FRAME ensures !Obstructed(m0, root, PathOf(v)[..3]) {
      if v >= va { SamePagePath(v, va); }
    }
  }

  lemma ObstructedIn(m0: Memory, m1: Memory, root: nat, start: nat, va: nat, end: nat)
    requires SameOutlook(m0, m1, root) && start <= va < end
    ensures Obstructed(m1, root, PathOf(va)[..3]) ==> !ClearRange(m0, root, start, end)
  {
    hide Obstructed, PathOf, Granted;
    OutlookAt(m0, m1, root, PathOf(va)[..3]);
  }

  // ----- Other regions -----

  /** A region of another process, whose tables are disjoint from those that were changed, stays as it is. */
  lemma OtherRegionKept(b0: Moment, b1: Moment, pid: nat, t0: set<nat>, t1: set<nat>, r: Region)
    requires Kept(b0, b1, pid, t0, t1) && Owned(b1) && InOrder(b0, r) && r.pid != pid && r.tables !! t0
    requires b1.mem.Keys == b0.mem.Keys && forall f: nat :: f in b1.held ==> Within(b1.base, b1.end, f)
    ensures InOrder(b1, r) && r.tables !! t1
    ensures forall q :: IsPath(q) ==> Walk(b1.mem, r.root, q) == Walk(b0.mem, r.root, q)
  {
    hide Walk, PathOf, Tree, Covers, Granted, Mapping, SameOutlook, WritableLayer;
    ElsewhereHarmless(b0.mem, b1.mem, r.root, r.tables);
    LayerKept(b0.mem, b1.mem, r.root, r.lo, r.top);
    MappingKept(b0.mem, b1.mem, r.root, b0.tracked[r.pid], r.backing, r.lo, r.hi);
  }

  /** The contents of a frame that was not held at first, and is no table, do not matter. */
  lemma ContentsFree(b0: Moment, b1: Moment, b2: Moment, r0: Region, r: Region, f: nat)
    requires Progress(b0, b1, r0, r) && f in b1.mem && f !in r.tables && f !in b0.held && Within(b0.base, b0.end, f)
    requires f in b2.mem && |b2.mem[f]| == WORDS_PER_FRAME && b2 == b1.(mem := b1.mem[f := b2.mem[f]])
    ensures Progress(b0, b2, r0, r)
  {
    hide Walk, PathOf, Tree, Covers, Granted, Obstructed, Mapping, WritableLayer, OpenedFor, ClearRange, FramesNeeded;
    hide Extends, Pages;
    hide SameOutside, SameOutlook;
    ElsewhereHarmless(b1.mem, b2.mem, r.root, r.tables);
    LayerKept(b1.mem, b2.mem, r.root, r.lo, r.top);
    MappingKept(b1.mem, b2.mem, r.root, b1.tracked[r.pid], r.backing, r.lo, r.hi);
    OutlookTrans(b0.mem, b1.mem, b2.mem, r.root);
    OutsideSame(b0.mem, b1.mem, b2.mem, r.root, r0.hi, r.hi);
    OpenedSame(b0.mem, b1.mem, b2.mem, r.root, r0.hi, r.hi);
  }

  lemma OutsideSame(m0: Memory, m1: Memory, m2: Memory, root: nat, start: nat, end: nat)
    requires SameOutside(m0, m1, root, start, end) && forall q :: IsPath(q) ==> Walk(m2, root, q) == Walk(m1, root, q)
    ensures SameOutside(m0, m2, root, start, end)
  {
    hide Walk, PathOf;
  }

  lemma OpenedSame(m0: Memory, m1: Memory, m2: Memory, root: nat, start: nat, va: nat)
    requires OpenedFor(m0, m1, root, start, va) && forall q :: IsPath(q) ==> Walk(m2, root, q) == Walk(m1, root, q)
    ensures OpenedFor(m0, m2, root, start, va)
  {
    hide Walk, Touched;
  }
}
