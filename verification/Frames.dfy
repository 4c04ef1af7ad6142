/** The physical frame allocator: a bump pointer over one pool, and a free list whose links are
    stored in the first word of each free frame. */
module Frames {
  import opened Words

  const FRAME := 4096
  const WORDS_PER_FRAME := 512

  /** Frame addresses are those that fit a page-table entry. */
  const PHYS_LIMIT := 0x10_0000_0000_0000

  /** Physical memory: 512 words at each frame address. */
  type Memory = map<nat, seq<nat>>

  function Zeroed(): seq<nat> { seq(WORDS_PER_FRAME, _ => 0) }

  function AlignUp(x: nat): (r: nat)
    ensures r % FRAME == 0 && x <= r < x + FRAME
  {
    (x + FRAME - 1) / FRAME * FRAME
  }

  ghost predicate HasFrame(mem: Memory, f: nat) { f in mem && |mem[f]| == WORDS_PER_FRAME }

  /** A word of memory; 0 where there is none. */
  function Word(mem: Memory, f: nat, i: nat): nat {
    if f in mem && i < |mem[f]| then mem[f][i] else 0
  }

  function SetWord(mem: Memory, t: nat, i: nat, e: nat): (mem': Memory)
    requires HasFrame(mem, t) && i < WORDS_PER_FRAME
    ensures HasFrame(mem', t) && Word(mem', t, i) == e
    ensures forall f: nat, j: nat :: f != t || j != i ==> Word(mem', f, j) == Word(mem, f, j)
    ensures forall f: nat :: HasFrame(mem', f) <==> HasFrame(mem, f)
    ensures mem'.Keys == mem.Keys
    ensures forall f: nat :: f != t ==> (f in mem' <==> f in mem) && (f in mem ==> mem'[f] == mem[f])
  {
    var words: seq<nat> := mem[t];
    var changed: seq<nat> := words[i := e];
    mem[t := changed]
  }

  lemma WordAt(mem: Memory, f: nat, i: nat)
    requires HasFrame(mem, f) && i < WORDS_PER_FRAME
    ensures Word(mem, f, i) == mem[f][i]
  {
  }

  /** From `head`, following first words, one meets exactly the frames of `list`, then 0. */
  ghost predicate Linked(mem: Memory, head: nat, list: seq<nat>)
    decreases |list|
  {
    if list == [] then head == 0
    else head == list[0] && head != 0 && HasFrame(mem, head) && Linked(mem, mem[head][0], list[1..])
  }

  lemma DistinctTail(list: seq<nat>)
    requires list != [] && Distinct(list)
    ensures Distinct(list[1..]) && list[0] !in list[1..]
    ensures forall f: nat :: f in list <==> f == list[0] || f in list[1..]
  {
  }

  /** A list does not notice a change outside its frames' first words. */
  lemma {:induction false} LinkedFrame(mem: Memory, mem': Memory, head: nat, list: seq<nat>)
    requires Linked(mem, head, list)
    requires forall f: nat :: f in list && HasFrame(mem, f) ==> HasFrame(mem', f) && mem'[f][0] == mem[f][0]
    ensures Linked(mem', head, list)
    decreases |list|
  {
    if list != [] {
      LinkedFrame(mem, mem', mem[head][0], list[1..]);
    }
  }

  /** A chain of links has no cycle: the list it denotes is unique. */
  lemma {:induction false} LinkedUnique(mem: Memory, head: nat, l1: seq<nat>, l2: seq<nat>)
    requires Linked(mem, head, l1) && Linked(mem, head, l2)
    ensures l1 == l2
    decreases |l1|
  {
    if l1 != [] && l2 != [] {
      LinkedUnique(mem, mem[head][0], l1[1..], l2[1..]);
    }
  }

  predicate Within(base: nat, end: nat, f: nat) {
    base != 0 && f % FRAME == 0 && base <= f && f + FRAME <= end
  }

  datatype Stats = Stats(
    totalBytes: nat, usedBytes: nat, freeBytes: nat, totalFrames: nat, usedFrames: nat, freeFrames: nat)

  // ----- The state of the allocator -----

  predicate Bounds(base: nat, next: nat, end: nat) {
    && (base == 0 ==> next == 0) && base % FRAME == 0 && next % FRAME == 0
    && base <= next && (next <= end || next == base) && end <= PHYS_LIMIT
  }

  /** All memory of the pool is there. */
  ghost predicate Backed(mem: Memory, base: nat, end: nat) {
    forall f: nat :: Within(base, end, f) ==> HasFrame(mem, f)
  }

  /** Below the bump pointer every frame of the pool is either held or free, and none is both. */
  ghost predicate Partition(base: nat, next: nat, end: nat, held: set<nat>, free: seq<nat>)
    requires base <= next
  {
    && (forall f: nat :: f in held || f in free <==> Within(base, end, f) && f < next)
    && (forall f: nat :: f in free ==> f !in held)
    && Distinct(free)
    && |held| + |free| == (next - base) / FRAME
  }

  /** Whole frames that have never been handed out. */
  function Untouched(base: nat, next: nat, end: nat): nat {
    if base == 0 || next >= end then 0 else (end - next) / FRAME
  }

  lemma PartitionBump(base: nat, next: nat, end: nat, held: set<nat>)
    requires Bounds(base, next, end) && Partition(base, next, end, held, []) && next != 0 && next + FRAME <= end
    ensures Bounds(base, next + FRAME, end) && Partition(base, next + FRAME, end, held + {next}, [])
    ensures Within(base, end, next) && next !in held
    ensures Untouched(base, next, end) == Untouched(base, next + FRAME, end) + 1
  {
    OneFrameOn(base, next, end);
    forall f: nat ensures f in held + {next} <==> Within(base, end, f) && f < next + FRAME {
      if Within(base, end, f) && next <= f < next + FRAME { SameFrameStart(f, next); }
    }
  }

  lemma OneFrameOn(base: nat, next: nat, end: nat)
    requires Bounds(base, next, end) && next != 0 && next + FRAME <= end
    ensures Bounds(base, next + FRAME, end) && Within(base, end, next)
    ensures (next + FRAME - base) / FRAME == (next - base) / FRAME + 1
    ensures Untouched(base, next, end) == Untouched(base, next + FRAME, end) + 1
  {
  }

  lemma SameFrameStart(f: nat, g: nat)
    requires f % FRAME == 0 && g % FRAME == 0 && g <= f < g + FRAME
    ensures f == g
  {
  }

  lemma PartitionTake(base: nat, next: nat, end: nat, held: set<nat>, free: seq<nat>)
    requires Bounds(base, next, end) && Partition(base, next, end, held, free) && free != []
    ensures Partition(base, next, end, held + {free[0]}, free[1..])
    ensures Within(base, end, free[0]) && free[0] < next && free[0] !in held && free[0] !in free[1..]
  {
    DistinctTail(free);
    assert free[0] in free;
  }

  lemma PartitionFree(base: nat, next: nat, end: nat, held: set<nat>, free: seq<nat>, f: nat)
    requires Bounds(base, next, end) && Partition(base, next, end, held, free) && f in held
    ensures Partition(base, next, end, held - {f}, [f] + free) && Within(base, end, f) && f !in free
  {
    var free' := [f] + free;
    assert f !in free;
    forall g: nat ensures g in free' <==> g == f || g in free {
    }
    assert held == (held - {f}) + {f};
  }

  lemma PartitionSum(base: nat, next: nat, end: nat)
    requires Bounds(base, next, end)
    ensures (next - base) / FRAME + Untouched(base, next, end) == Untouched(base, base, end)
  {
  }

  /** Nothing is left exactly when every frame is held. */
  lemma ExhaustedIs(base: nat, next: nat, end: nat, held: set<nat>, free: seq<nat>)
    requires Bounds(base, next, end) && Partition(base, next, end, held, free)
    ensures |free| + Untouched(base, next, end) == 0 <==> forall f: nat :: Within(base, end, f) ==> f in held
  {
    if free != [] {
      assert free[0] in free;
    } else if Untouched(base, next, end) > 0 {
      assert Within(base, end, next);
    }
  }

  /** Putting a frame in front of a list: the result is a list exactly when the frame was not on it. */
  lemma FreeingTwice(mem: Memory, head: nat, list: seq<nat>, f: nat)
    requires Linked(mem, head, list) && f != 0 && HasFrame(mem, f)
    ensures f !in list <==> exists list' :: Linked(SetWord(mem, f, 0, head), f, list')
  {
    var mem' := SetWord(mem, f, 0, head);
    if f !in list {
      LinkedFrame(mem, mem', head, list);
      var list' := [f] + list;
      assert list'[1..] == list;
      assert Linked(mem', f, list');
      assert exists l :: Linked(SetWord(mem, f, 0, head), f, l);
    } else if list' :| Linked(mem', f, list') {
      CycleIsNoList(mem, mem', head, list, f, list');
    }
  }

  /** A chain that leads back to where it started has no end. */
  lemma {:induction false} CycleIsNoList(mem: Memory, mem': Memory, head: nat, list: seq<nat>, f: nat, list': seq<nat>)
    requires Linked(mem, head, list) && f in list && f != 0 && HasFrame(mem', f) && Word(mem', f, 0) == head
    requires SameLinksBut(mem, mem', f) && Linked(mem', f, list')
    ensures false
    decreases |list'|
  {
    var rest := ComesTo(mem, mem', head, list, f, list'[1..]);
    CycleIsNoList(mem, mem', head, list, f, rest);
  }

  ghost predicate SameLinksBut(mem: Memory, mem': Memory, f: nat) {
    forall g: nat :: g != f && HasFrame(mem, g) ==> HasFrame(mem', g) && Word(mem', g, 0) == Word(mem, g, 0)
  }

  lemma {:induction false} ComesTo(mem: Memory, mem': Memory, head: nat, list: seq<nat>, f: nat, list': seq<nat>)
    returns (rest: seq<nat>)
    requires Linked(mem, head, list) && f in list && SameLinksBut(mem, mem', f) && Linked(mem', head, list')
    ensures |rest| <= |list'| && Linked(mem', f, rest)
    decreases |list|
  {
    if head == f {
      rest := list';
    } else {
      rest := ComesTo(mem, mem', mem[head][0], list[1..], f, list'[1..]);
    }
  }

  class FramePool {
    var mem: Memory
    var base: nat
    var next: nat
    var end: nat
    var freeHead: nat
    ghost var free: seq<nat>
    ghost var held: set<nat>

    predicate InPool(f: nat)
      reads this`base, this`end
    {
      Within(base, end, f)
    }

    /** Bump remainder, free list and held frames partition the pool; the free list is acyclic. */
    ghost predicate Valid()
      reads this
    {
      && Bounds(base, next, end) && Backed(mem, base, end)
      && Partition(base, next, end, held, free) && Linked(mem, freeHead, free)
    }

    /** How many frames can still be had. */
    ghost function Available(): nat
      reads this
    {
      |free| + Untouched(base, next, end)
    }

    lemma PoolFacts()
      requires Valid()
      ensures end <= PHYS_LIMIT && forall f: nat :: f in free ==> f !in held && InPool(f)
      ensures forall f: nat :: f in held ==> InPool(f)
      ensures forall f: nat :: InPool(f) ==> HasFrame(mem, f)
    {
      hide Linked;
    }

    /** What can be had and what is held make up the pool. */
    lemma PoolSum()
      requires Valid()
      ensures Available() + |held| == Untouched(base, base, end)
    {
      hide Linked, Backed;
      PartitionSum(base, next, end);
    }

    constructor (memory: Memory)
      ensures Valid() && mem == memory && held == {} && forall f: nat :: !InPool(f)
    {
      mem := memory;
      base, next, end, freeHead := 0, 0, 0, 0;
      free, held := [], {};
    }

    method Init(start: nat, size: nat)
      requires start + size <= PHYS_LIMIT
      requires forall f: nat :: Within(AlignUp(start), start + size, f) ==> HasFrame(mem, f)
      modifies this
      ensures Valid() && held == {} && free == [] && mem == old(mem)
      ensures forall f: nat :: InPool(f) <==>
                && size != 0 && AlignUp(start) != 0 && f != 0
                && f % FRAME == 0 && start <= f && f + FRAME <= start + size
    {
      free, held := [], {};
      if size == 0 {
        base, next, end, freeHead := 0, 0, 0, 0;
        return;
      }
      var aligned := AlignUp(start);
      next := aligned;
      base := aligned;
      end := start + size;
      freeHead := 0;
    }

    /** A frame that is not held, zeroed; none only when every frame of the pool is held. */
    method AllocFrame() returns (r: Option<nat>)
      requires Valid()
      modifies this
      ensures Valid() && base == old(base) && end == old(end)
      ensures r.None? <==> old(Available()) == 0
      ensures r.None? <==> forall f: nat :: InPool(f) ==> f in old(held)
      ensures r.None? ==> mem == old(mem) && held == old(held) && free == old(free) && next == old(next)
      ensures r.Some? ==>
        && InPool(r.value) && r.value != 0 && r.value !in old(held) && held == old(held) + {r.value}
        && mem == old(mem)[r.value := Zeroed()] && Available() == old(Available()) - 1
        && free == (if old(free) == [] then [] else old(free)[1..])
        && r.value == (if old(free) == [] then old(next) else old(free)[0])
    {
      ExhaustedIs(base, next, end, held, free);
      if freeHead != 0 {
        var frame := TakeFree();
        return Some(frame);
      }
      assert free == [];
      hide Linked, Partition, Backed;
      if next == 0 || next + FRAME > end { return None; }
      var frame := TakeNext();
      r := Some(frame);
    }

    /** The bump half of `alloc_frame`. */
    method TakeNext() returns (frame: nat)
      requires Valid() && freeHead == 0 && free == [] && next != 0 && next + FRAME <= end
      modifies this`next, this`mem, this`held
      ensures Valid() && frame == old(next) && next == frame + FRAME && Available() == old(Available()) - 1
      ensures InPool(frame) && frame !in old(held)
      ensures held == old(held) + {frame} && mem == old(mem)[frame := Zeroed()]
    {
      hide Partition, Untouched;
      PartitionBump(base, next, end, held);
      frame := next;
      next := frame + FRAME;
      mem := mem[frame := Zeroed()];
      held := held + {frame};
    }

    /** The free-list half of `alloc_frame`. */
    method TakeFree() returns (frame: nat)
      requires Valid() && freeHead != 0
      modifies this`freeHead, this`mem, this`free, this`held
      ensures Valid() && old(free) != [] && frame == old(free)[0] && free == old(free)[1..]
      ensures InPool(frame) && frame != 0 && frame < next && frame !in old(held)
      ensures held == old(held) + {frame} && mem == old(mem)[frame := Zeroed()]
    {
      hide Partition, Untouched;
      frame := freeHead;
      freeHead := mem[frame][0];
      PartitionTake(base, next, end, held, free);
      mem := mem[frame := Zeroed()];
      free, held := free[1..], held + {frame};
      LinkedFrame(old(mem), mem, freeHead, free);
    }

    /** The address becomes the head of the free list; 0 and unaligned addresses are ignored. For a
        held frame the allocator stays in order. */
    method FreeFrame(phys: nat)
      requires Valid() && (phys != 0 && phys % FRAME == 0 ==> HasFrame(mem, phys))
      modifies this
      ensures base == old(base) && end == old(end) && next == old(next)
      ensures phys != 0 && phys % FRAME == 0 ==> freeHead == phys && mem == SetWord(old(mem), phys, 0, old(freeHead))
      ensures phys in old(held) ==>
        && Valid() && free == [phys] + old(free) && held == old(held) - {phys} && Available() == old(Available()) + 1
      ensures phys == 0 || phys % FRAME != 0 ==>
        Valid() && free == old(free) && held == old(held) && mem == old(mem) && freeHead == old(freeHead)
    {
      hide Partition, Untouched;
      PoolFacts();
      if phys == 0 || phys % FRAME != 0 { return; }
      mem := SetWord(mem, phys, 0, freeHead);
      freeHead := phys;
      if phys in held {
        PartitionFree(base, next, end, held, free, phys);
        LinkedFrame(old(mem), mem, old(freeHead), free);
        free, held := [phys] + free, held - {phys};
      }
    }

    /** A store to memory that is not on the free list. */
    method Store(f: nat, i: nat, v: nat)
      requires Valid() && HasFrame(mem, f) && i < WORDS_PER_FRAME && f !in free
      modifies this`mem
      ensures Valid() && mem == SetWord(old(mem), f, i, v)
    {
      hide Partition, Word;
      mem := SetWord(mem, f, i, v);
      LinkedFrame(old(mem), mem, freeHead, free);
    }

    /** A whole frame is copied over one that is not on the free list. */
    method CopyFrame(src: nat, dst: nat)
      requires Valid() && HasFrame(mem, src) && HasFrame(mem, dst) && dst !in free
      modifies this`mem
      ensures Valid() && mem == old(mem)[dst := old(mem)[src]]
    {
      hide Partition, Word;
      mem := mem[dst := mem[src]];
      LinkedFrame(old(mem), mem, freeHead, free);
    }

    method PoolStats() returns (s: Stats)
      requires Valid()
      ensures s.totalBytes == s.usedBytes + s.freeBytes && s.usedBytes == FRAME * s.usedFrames
      ensures s.totalBytes == if base == 0 || end <= base then 0 else end - base
      ensures s.totalFrames == s.usedFrames + s.freeFrames
      ensures s.totalFrames == if base == 0 || end <= base then 0 else (end - base) / FRAME
      ensures s.usedFrames == |held| + |free| && s.freeFrames == Untouched(base, next, end)
    {
      hide Linked, Backed;
      if base == 0 || end <= base {
        return Stats(0, 0, 0, 0, 0, 0);
      }
      var total := end - base;
      var used := if next >= base then next - base else 0;
      s := Stats(total, used, total - used, total / FRAME, used / FRAME, (total - used) / FRAME);
    }

    /** Counts exactly the frames that are held and those that are not. */
    method RealStats() returns (s: Stats)
      requires Valid()
      ensures s.usedFrames == |held| && s.freeFrames == s.totalFrames - |held| == Available()
      ensures s.usedBytes == FRAME * |held| && s.freeBytes == FRAME * s.freeFrames
      ensures s.totalBytes == if base == 0 || end <= base then 0 else end - base
      ensures forall all: set<nat> :: (forall f: nat :: f in all <==> InPool(f)) ==> |all| == s.totalFrames
    {
      var st := PoolStats();
      var freeFrames := st.freeFrames;
      var f := freeHead;
      ghost var rest := free;
      while f != 0
        invariant Linked(mem, f, rest) && freeFrames + |rest| == st.freeFrames + |free|
        decreases |rest|
      {
        freeFrames := freeFrames + 1;
        f := mem[f][0];
        rest := rest[1..];
      }
      s := Stats(st.totalBytes, (st.totalFrames - freeFrames) * FRAME, freeFrames * FRAME,
                 st.totalFrames, st.totalFrames - freeFrames, freeFrames);
      forall all: set<nat> | forall f: nat :: f in all <==> InPool(f) ensures |all| == s.totalFrames {
        PoolCount(base, end, all);
      }
    }
  }

  /** The pool's frames are those counted by dividing its size. */
  lemma {:induction false} PoolCount(base: nat, end: nat, all: set<nat>)
    requires base % FRAME == 0 && forall f: nat :: f in all <==> Within(base, end, f)
    ensures |all| == if base == 0 || end <= base then 0 else (end - base) / FRAME
    decreases end - base
  {
    if base == 0 || end < base + FRAME {
      assert all == {};
    } else {
      var rest := all - {base};
      assert Within(base, end, base);
      forall f: nat ensures f in rest <==> Within(base + FRAME, end, f) {
      }
      PoolCount(base + FRAME, end, rest);
      assert all == rest + {base};
    }
  }
}
