/** Roots that share tables: what a process sees after pages were mapped through another root. */
module SharedRoots {
  import opened Frames
  import opened PageTables
  import opened PageMapping
  import opened Regions

  /** The same access, with user rights only if the way there grants them. */
  function Masked(a: Access, user: bool): Access {
    match a
    case Fault => Fault
    case Table(f, w, u) => Table(f, w, u && user)
    case Page(f, w, u) => Page(f, w, u && user)
  }

  /** Entry `i` of root `a` leads to a table of root `b`, which grants no fewer rights to it. */
  ghost predicate Shares(mem: Memory, a: nat, b: nat, i: nat) {
    Walk(mem, a, [i]).Table? && Raises(Walk(mem, a, [i]), Walk(mem, b, [i]))
  }

  lemma FollowMasked(a: Access, depth: nat, e: nat, i: nat, user: bool)
    ensures Follow(Masked(a, user), depth, e, i) == Masked(Follow(a, depth, e, i), user)
  {
  }

  /** Below a shared entry both roots lead to the same places. */
  lemma {:induction false} SharedWalk(mem: Memory, a: nat, b: nat, q: seq<nat>)
    requires q != [] && Shares(mem, a, b, q[0])
    ensures Walk(mem, a, q) == Masked(Walk(mem, b, q), Walk(mem, a, [q[0]]).user)
    decreases |q|
  {
    hide Walk, Follow;
    var n := |q| - 1;
    if n == 0 {
      assert q == [q[0]];
    } else {
      SharedWalk(mem, a, b, q[..n]);
      WalkStep(mem, a, q);
      WalkStep(mem, b, q);
      var x := Walk(mem, b, q[..n]);
      FollowMasked(x, n, if x.Table? then Word(mem, x.frame, q[n]) else 0, q[n], Walk(mem, a, [q[0]]).user);
    }
  }

  /** A root's entries are those of its own frame; none maps a page. */
  lemma RootEntry(mem: Memory, mem': Memory, o: nat, i: nat)
    requires o in mem && o in mem' && mem'[o] == mem[o]
    ensures Walk(mem', o, [i]) == Walk(mem, o, [i]) && !Walk(mem, o, [i]).Page?
  {
    WalkEmpty(mem, o);
    WalkEmpty(mem', o);
    WalkStep(mem, o, [i]);
    WalkStep(mem', o, [i]);
    assert [i][..0] == [];
    hide Walk;
  }

  /** Every table right below root `o` is also right below `root`. */
  ghost predicate SharesAll(mem: Memory, o: nat, root: nat) {
    forall i: nat :: i < WORDS_PER_FRAME && Walk(mem, o, [i]).Table? ==> Shares(mem, o, root, i)
  }

  /** What root `o` sees after tables of `root` were changed: below its own entries just what `root` has
      there, and elsewhere nothing, as before. */
  lemma SeenThrough(mem: Memory, mem': Memory, root: nat, o: nat, q: seq<nat>)
    requires IsPath(q) && q != [] && TablesRemain(mem, mem', root) && SharesAll(mem, o, root)
    requires o in mem && o in mem' && mem'[o] == mem[o]
    ensures var top := Walk(mem, o, [q[0]]);
            Walk(mem', o, q) == if top.Table? then Masked(Walk(mem', root, q), top.user) else Fault
    ensures var top := Walk(mem, o, [q[0]]);
            Walk(mem, o, q) == if top.Table? then Masked(Walk(mem, root, q), top.user) else Fault
  {
    hide Walk;
    var i := q[0];
    RootEntry(mem, mem', o, i);
    if Walk(mem, o, [i]).Table? {
      assert IsPath([i]) && Shares(mem, o, root, i);
      SharedWalk(mem, o, root, q);
      SharedWalk(mem', o, root, q);
    } else {
      assert [i] <= q;
      FaultBelow(mem, o, [i], q);
      FaultBelow(mem', o, [i], q);
    }
  }

  /** Pages mapped through `root` in the range also appear below root `o`, where it has an entry for
      them; elsewhere `o` keeps its pages. */
  ghost predicate Appear(mem: Memory, mem': Memory, o: nat, start: nat, end: nat, backing: map<nat, nat>) {
    && SameOutside(mem, mem', o, start, end)
    && forall va: nat :: va in backing && start <= va < end ==>
         var top := Walk(mem, o, PathOf(va)[..1]);
         Walk(mem', o, PathOf(va)) == if top.Table? then Page(backing[va], true, top.user) else Fault
  }

  lemma PagesAppear(mem: Memory, mem': Memory, root: nat, o: nat, start: nat, end: nat, backing: map<nat, nat>)
    requires TablesRemain(mem, mem', root) && SharesAll(mem, o, root) && SameOutside(mem, mem', root, start, end)
    requires o in mem && o in mem' && mem'[o] == mem[o]
    requires forall va: nat :: va in backing && start <= va < end ==>
      Walk(mem', root, PathOf(va)) == Page(backing[va], true, true)
    ensures Appear(mem, mem', o, start, end, backing)
  {
    hide Walk, PathOf, TablesRemain, SharesAll;
    forall q | IsPath(q) && |q| == 4 && OutsideRange(q, start, end) ensures Walk(mem', o, q) == Walk(mem, o, q) {
      SeenThrough(mem, mem', root, o, q);
    }
    forall va: nat | va in backing && start <= va < end
      ensures var top := Walk(mem, o, PathOf(va)[..1]);
              Walk(mem', o, PathOf(va)) == if top.Table? then Page(backing[va], true, top.user) else Fault
    {
      SeenThrough(mem, mem', root, o, PathOf(va));
      assert PathOf(va)[..1] == [PathOf(va)[0]];
    }
  }

  /** A copied root shares every table. */
  lemma CloneShares(mem: Memory, mem': Memory, src: nat, dst: nat)
    requires forall q :: IsPath(q) && q != [] ==> Walk(mem', dst, q) == Walk(mem, src, q)
    requires forall q :: IsPath(q) ==> Walk(mem', src, q) == Walk(mem, src, q)
    ensures SharesAll(mem', src, dst)
  {
    hide Walk;
    forall i: nat | i < WORDS_PER_FRAME && Walk(mem', src, [i]).Table? ensures Shares(mem', src, dst, i) {
      assert IsPath([i]);
    }
  }

  lemma AppearOn(mem: Memory, mem1: Memory, mem2: Memory, o: nat, start: nat, end: nat, backing: map<nat, nat>)
    requires forall q :: IsPath(q) ==> Walk(mem1, o, q) == Walk(mem, o, q)
    requires Appear(mem1, mem2, o, start, end, backing)
    ensures Appear(mem, mem2, o, start, end, backing)
  {
    hide Walk, PathOf;
    forall va: nat ensures IsPath(PathOf(va)[..1]) {
    }
  }
}
