/** `map_page`: what each of its writes to the tables does to every translation. */
module PageMapping {
  import opened Words
  import opened Frames
  import opened PageTables

  // ----- A leaf entry is written -----

  lemma {:induction false} LeafWalk(mem: Memory, root: nat, p: seq<nat>, i: nat, e: nat, q: seq<nat>)
    requires Tree(mem, root) && IsPath(p) && |p| == 3 && Walk(mem, root, p).Table? && i < WORDS_PER_FRAME
    requires IsPath(q) && q != p + [i]
    ensures Walk(SetWord(mem, Walk(mem, root, p).frame, i, e), root, q) == Walk(mem, root, q)
    decreases |q|
  {
    hide UserPaths, TablesPresent, Follow;
    if q != [] {
      var n := |q| - 1;
      assert |q[..n]| < |p + [i]|;
      LeafWalk(mem, root, p, i, e, q[..n]);
      assert q[..n] == p && q[n] == i ==> q == p + [i];
    }
  }

  lemma LeafTree(mem: Memory, root: nat, p: seq<nat>, i: nat, e: nat)
    requires Tree(mem, root) && IsPath(p) && |p| == 3 && Walk(mem, root, p).Table? && i < WORDS_PER_FRAME
    requires User(e) ==> Walk(mem, root, p).user
    ensures Tree(SetWord(mem, Walk(mem, root, p).frame, i, e), root)
  {
    hide SetWord, Follow;
    var t := Walk(mem, root, p).frame;
    var mem' := SetWord(mem, t, i, e);
    forall q | IsPath(q) && |q| <= 3 ensures Walk(mem', root, q) == Walk(mem, root, q) {
      LeafWalk(mem, root, p, i, e, q);
    }
    forall q, j: nat | IsPath(q) && |q| <= 3 && UserPage(mem', Walk(mem', root, q), |q|, j)
      ensures Walk(mem', root, q).user
    {
      assert Walk(mem', root, q) == Walk(mem, root, q);
      if Walk(mem, root, q).frame == t && j == i {
        assert SameTable(Walk(mem, root, p), Walk(mem, root, q));
      } else {
        assert UserPage(mem, Walk(mem, root, q), |q|, j);
      }
    }
  }

  // ----- A missing table is created -----

  ghost predicate CanCreate(mem: Memory, root: nat, p: seq<nat>, i: nat, f: nat, tables: set<nat>) {
    && Tree(mem, root) && Covers(mem, root, tables) && IsPath(p) && |p| < 3 && Walk(mem, root, p).Table?
    && i < WORDS_PER_FRAME && !Present(Word(mem, Walk(mem, root, p).frame, i))
    && f !in tables && f in mem && mem[f] == Zeroed() && Addr(f) == f
  }

  function Created(mem: Memory, root: nat, p: seq<nat>, i: nat, f: nat, user: bool): Memory
    requires Walk(mem, root, p).Table? && HasFrame(mem, Walk(mem, root, p).frame) && i < WORDS_PER_FRAME
  {
    SetWord(mem, Walk(mem, root, p).frame, i, MakeEntry(f, true, user))
  }

  lemma ZeroEntry(mem: Memory, f: nat, j: nat)
    requires f in mem && mem[f] == Zeroed()
    ensures !Present(Word(mem, f, j))
  {
  }

  lemma {:induction false} FaultBelow(mem: Memory, root: nat, p: seq<nat>, q: seq<nat>)
    requires p <= q && Walk(mem, root, p) == Fault
    ensures Walk(mem, root, q) == Fault
    decreases |q|
  {
    if p != q {
      assert p <= q[..|q| - 1];
      FaultBelow(mem, root, p, q[..|q| - 1]);
    }
  }

  /** Below the new entry there is one empty table and nothing else; elsewhere nothing changes. */
  lemma {:induction false} CreateWalk(mem: Memory, root: nat, p: seq<nat>, i: nat, f: nat, tables: set<nat>,
                                      user: bool, q: seq<nat>)
    requires CanCreate(mem, root, p, i, f, tables) && IsPath(q)
    ensures var mem' := Created(mem, root, p, i, f, user);
            var a := Walk(mem, root, p);
            Walk(mem', root, q) ==
              if q == p + [i] then Table(f, a.writable, a.user && user) else Walk(mem, root, q)
    decreases |q|
  {
    hide UserPaths, MakeEntry, SetWord, Zeroed, Walk, Word, Addr, Present, Writable, User, Huge, Span;
    var mem' := Created(mem, root, p, i, f, user);
    if q == [] {
      WalkEmpty(mem, root);
      WalkEmpty(mem', root);
    } else {
      var n := |q| - 1;
      CreateWalk(mem, root, p, i, f, tables, user, q[..n]);
      WalkStep(mem', root, q);
      WalkStep(mem, root, q);
      assert q[..n] == p && q[n] == i <==> q == p + [i];
      if q[..n] == p + [i] {
        ZeroEntry(mem, f, q[n]);
        WalkSnoc(mem, root, p, i);
        FaultBelow(mem, root, p + [i], q);
      } else if Walk(mem, root, q[..n]).Table? && q != p + [i] {
        assert !SameTable(Walk(mem, root, q[..n]), Walk(mem, root, p)) || q[..n] == p;
      }
    }
  }

  lemma CreateTree(mem: Memory, root: nat, p: seq<nat>, i: nat, f: nat, tables: set<nat>, user: bool)
    requires CanCreate(mem, root, p, i, f, tables)
    ensures var mem' := Created(mem, root, p, i, f, user);
            Tree(mem', root) && Covers(mem', root, tables + {f}) && SamePages(mem, mem', root)
  {
    hide Walk, MakeEntry, SetWord, Zeroed, Created;
    var mem' := Created(mem, root, p, i, f, user);
    forall q | IsPath(q)
      ensures Walk(mem', root, q) ==
        if q == p + [i] then Table(f, Walk(mem, root, p).writable, Walk(mem, root, p).user && user)
        else Walk(mem, root, q)
    {
      CreateWalk(mem, root, p, i, f, tables, user, q);
    }
    CreatePresent(mem, root, p, i, f, tables, user);
    CreateUser(mem, root, p, i, f, tables, user);
    forall q | IsPath(q) && |q| == 4 ensures Walk(mem', root, q) == Walk(mem, root, q) {
      assert |p + [i]| < 4;
    }
  }

  lemma CreatePresent(mem: Memory, root: nat, p: seq<nat>, i: nat, f: nat, tables: set<nat>, user: bool)
    requires CanCreate(mem, root, p, i, f, tables)
    ensures TablesPresent(Created(mem, root, p, i, f, user), root)
  {
    hide Walk, MakeEntry, UserPaths, TablesDistinct;
    var mem' := Created(mem, root, p, i, f, user);
    forall q | IsPath(q) && |q| <= 3 && Walk(mem', root, q).Table? ensures HasFrame(mem', Walk(mem', root, q).frame) {
      CreateWalk(mem, root, p, i, f, tables, user, q);
    }
  }

  lemma CreateUser(mem: Memory, root: nat, p: seq<nat>, i: nat, f: nat, tables: set<nat>, user: bool)
    requires CanCreate(mem, root, p, i, f, tables)
    ensures UserPaths(Created(mem, root, p, i, f, user), root)
  {
    hide Walk, MakeEntry, Zeroed, SetWord;
    var t := Walk(mem, root, p).frame;
    var mem' := Created(mem, root, p, i, f, user);
    forall q, j: nat | IsPath(q) && |q| <= 3 && UserPage(mem', Walk(mem', root, q), |q|, j)
      ensures Walk(mem', root, q).user
    {
      CreateWalk(mem, root, p, i, f, tables, user, q);
      ZeroEntry(mem, f, j);
      if q != p + [i] && Walk(mem, root, q).Table? {
        assert SameTable(Walk(mem, root, p), Walk(mem, root, q)) ==> p == q;
        assert (Walk(mem, root, q).frame == t && j == i) || UserPage(mem, Walk(mem, root, q), |q|, j);
      }
    }
  }

  lemma {:induction false} CreateOutlook(mem: Memory, root: nat, p: seq<nat>, i: nat, f: nat, tables: set<nat>,
      user: bool, q: seq<nat>)
    requires CanCreate(mem, root, p, i, f, tables) && IsPath(q)
    ensures var mem' := Created(mem, root, p, i, f, user);
            Granted(mem', root, q) == Granted(mem, root, q) && Obstructed(mem', root, q) == Obstructed(mem, root, q)
    decreases |q|
  {
    hide UserPaths, MakeEntry, SetWord, Zeroed, Walk, Word, Follow, Granted, Obstructed, Addr, Present, Writable, User;
    hide Huge;
    var mem' := Created(mem, root, p, i, f, user);
    CreateWalk(mem, root, p, i, f, tables, user, q);
    OutlookStep(mem, root, q);
    OutlookStep(mem', root, q);
    if q != [] {
      var n := |q| - 1;
      CreateOutlook(mem, root, p, i, f, tables, user, q[..n]);
      CreateWalk(mem, root, p, i, f, tables, user, q[..n]);
      assert q[..n] == p && q[n] == i <==> q == p + [i];
      ZeroEntry(mem, f, q[n]);
      WalkSnoc(mem, root, p, i);
      OutlookStep(mem, root, q[..n]);
      FollowAbsent(Walk(mem, root, p), |p|, Word(mem, Walk(mem, root, p).frame, i), i);
      CreateBlocks(mem, root, p, i, f, tables, user, q);
    }
  }

  lemma CreateBlocks(mem: Memory, root: nat, p: seq<nat>, i: nat, f: nat, tables: set<nat>, user: bool, q: seq<nat>)
    requires CanCreate(mem, root, p, i, f, tables) && IsPath(q) && q != []
    ensures var mem' := Created(mem, root, p, i, f, user);
            var n := |q| - 1;
            Blocks(mem', Walk(mem', root, q[..n]), q[n]) == Blocks(mem, Walk(mem, root, q[..n]), q[n])
  {
    hide UserPaths, MakeEntry, SetWord, Zeroed, Walk, Word, Follow, Granted, Obstructed, Addr, Present, Writable, User;
    hide Huge;
    var n := |q| - 1;
    CreateWalk(mem, root, p, i, f, tables, user, q[..n]);
    ZeroEntry(mem, f, q[n]);
    WalkSnoc(mem, root, p, i);
    FollowAbsent(Walk(mem, root, p), |p|, Word(mem, Walk(mem, root, p).frame, i), i);
    if Walk(mem, root, q[..n]).Table? {
      assert SameTable(Walk(mem, root, q[..n]), Walk(mem, root, p)) ==> q[..n] == p;
    }
  }

  lemma FollowAbsent(a: Access, depth: nat, e: nat, i: nat)
    requires a.Table? && !Present(e)
    ensures Follow(a, depth, e, i) == Fault
  {
  }

  // ----- The user bit of an existing table is raised -----

  ghost predicate CanRaise(mem: Memory, root: nat, p: seq<nat>, i: nat) {
    && Tree(mem, root) && IsPath(p) && |p| < 3 && Walk(mem, root, p).Table? && i < WORDS_PER_FRAME
    && var e := Word(mem, Walk(mem, root, p).frame, i); Present(e) && !Huge(e)
  }

  function Raised(mem: Memory, root: nat, p: seq<nat>, i: nat): Memory
    requires Walk(mem, root, p).Table? && HasFrame(mem, Walk(mem, root, p).frame) && i < WORDS_PER_FRAME
  {
    var t := Walk(mem, root, p).frame;
    SetWord(mem, t, i, WithUser(Word(mem, t, i)))
  }

  /** The same table with no fewer rights, or the very same page. */
  predicate Raises(a: Access, b: Access) {
    if a.Table? then b.Table? && b.frame == a.frame && b.writable == a.writable && (a.user ==> b.user) else b == a
  }

  lemma {:induction false} RaiseWalk(mem: Memory, root: nat, p: seq<nat>, i: nat, q: seq<nat>)
    requires CanRaise(mem, root, p, i) && IsPath(q)
    ensures Raises(Walk(mem, root, q), Walk(Raised(mem, root, p, i), root, q))
    ensures !(p + [i] <= q) ==> Walk(Raised(mem, root, p, i), root, q) == Walk(mem, root, q)
    decreases |q|
  {
    hide WithUser, SetWord, Walk, Word, Addr, Present, Writable, User, Huge, Span;
    var mem' := Raised(mem, root, p, i);
    if q == [] {
      WalkEmpty(mem, root);
      WalkEmpty(mem', root);
    } else {
      var n := |q| - 1;
      RaiseWalk(mem, root, p, i, q[..n]);
      WalkStep(mem', root, q);
      WalkStep(mem, root, q);
      assert q[..n] == p && q[n] == i ==> q == p + [i];
      assert p + [i] <= q[..n] ==> p + [i] <= q;
      var a := Walk(mem, root, q[..n]);
      if a.Table? {
        assert SameTable(a, Walk(mem, root, p)) ==> q[..n] == p;
        assert UserPage(mem, a, n, q[n]) ==> a.user;
      }
    }
  }

  lemma RaiseTree(mem: Memory, root: nat, p: seq<nat>, i: nat)
    requires CanRaise(mem, root, p, i)
    ensures var mem' := Raised(mem, root, p, i);
            Tree(mem', root) && SamePages(mem, mem', root) && forall tables :: Covers(mem, root, tables) ==>
              Covers(mem', root, tables)
  {
    hide WithUser, SetWord, Walk, Word, Addr, Present, Writable, User, Huge;
    var mem' := Raised(mem, root, p, i);
    forall q | IsPath(q) ensures Raises(Walk(mem, root, q), Walk(mem', root, q)) {
      RaiseWalk(mem, root, p, i, q);
    }
    forall q, j: nat | IsPath(q) && |q| <= 3 && UserPage(mem', Walk(mem', root, q), |q|, j)
      ensures Walk(mem', root, q).user
    {
      assert SameTable(Walk(mem, root, p), Walk(mem, root, q)) ==> p == q;
      assert UserPage(mem, Walk(mem, root, q), |q|, j);
    }
    forall q | IsPath(q) && |q| == 4 ensures Walk(mem', root, q) == Walk(mem, root, q) {
      WalkStep(mem, root, q);
    }
    forall q, r | IsPath(q) && IsPath(r) && |q| <= 3 && |r| <= 3 && SameTable(Walk(mem', root, q), Walk(mem', root, r))
      ensures q == r
    {
      assert SameTable(Walk(mem, root, q), Walk(mem, root, r));
    }
  }

  lemma {:induction false} RaiseOutlook(mem: Memory, root: nat, p: seq<nat>, i: nat, q: seq<nat>)
    requires CanRaise(mem, root, p, i) && IsPath(q)
    ensures var mem' := Raised(mem, root, p, i);
            Granted(mem', root, q) == Granted(mem, root, q) && Obstructed(mem', root, q) == Obstructed(mem, root, q)
    decreases |q|
  {
    hide UserPaths, WithUser, SetWord, Walk, Word, Granted, Obstructed, Addr, Present, Writable, User, Huge;
    RaiseWalk(mem, root, p, i, q);
    OutlookStep(mem, root, q);
    OutlookStep(Raised(mem, root, p, i), root, q);
    if q != [] {
      var n := |q| - 1;
      RaiseOutlook(mem, root, p, i, q[..n]);
      RaiseWalk(mem, root, p, i, q[..n]);
    }
  }

  // ----- An address space with nothing in it -----

  lemma EmptyWalk(mem: Memory, root: nat, p: seq<nat>)
    requires root in mem && mem[root] == Zeroed()
    ensures p != [] ==> Walk(mem, root, p) == Fault
    ensures Granted(mem, root, p) && !Obstructed(mem, root, p)
    decreases |p|
  {
    hide Zeroed;
    if p != [] {
      var n := |p| - 1;
      EmptyWalk(mem, root, p[..n]);
      ZeroEntry(mem, root, p[n]);
    }
  }

  /** A cleared root is a tree of one table, in which every path can be made writable. */
  lemma EmptyTree(mem: Memory, root: nat)
    requires root in mem && mem[root] == Zeroed()
    ensures Tree(mem, root) && Covers(mem, root, {root})
    ensures forall p :: Granted(mem, root, p) && !Obstructed(mem, root, p)
  {
    hide Walk, Granted, Obstructed;
    assert HasFrame(mem, root);
    forall p ensures (p != [] ==> Walk(mem, root, p) == Fault) && Granted(mem, root, p) && !Obstructed(mem, root, p) {
      EmptyWalk(mem, root, p);
    }
    WalkEmpty(mem, root);
  }

  // ----- The two functions of the kernel -----

  /** The allocator is in order, the tables form a tree, and none of them can be allocated again. */
  ghost predicate Safe(pool: FramePool, root: nat, tables: set<nat>)
    reads pool
  {
    && pool.Valid() && Tree(pool.mem, root) && Covers(pool.mem, root, tables)
    && forall t: nat :: t in tables && pool.InPool(t) ==> t in pool.held
  }

  /** Tables stay where they are, with no fewer rights. */
  ghost predicate TablesRemain(mem: Memory, mem': Memory, root: nat) {
    forall q :: IsPath(q) && |q| <= 3 && Walk(mem, root, q).Table? ==> Raises(Walk(mem, root, q), Walk(mem', root, q))
  }

  /** Same tables, same writable paths and same obstructions. */
  ghost predicate SameOutlook(mem: Memory, mem': Memory, root: nat) {
    && TablesRemain(mem, mem', root)
    && forall q :: IsPath(q) && |q| <= 3 ==>
         Granted(mem', root, q) == Granted(mem, root, q) && Obstructed(mem', root, q) == Obstructed(mem, root, q)
  }

  /** Frames that became tables were taken from the allocator; no other frame has changed. */
  ghost predicate OnlyTables(mem: Memory, held: set<nat>, mem': Memory, held': set<nat>, tables: set<nat>,
                             tables': set<nat>) {
    && tables <= tables' && held' == held + (tables' - tables) && held !! (tables' - tables) && mem'.Keys == mem.Keys
    && forall f: nat :: f in mem && f !in tables' ==> f in mem' && mem'[f] == mem[f]
  }

  /** The only table that may have come into being is the one at `p`. */
  ghost predicate Opens(mem: Memory, mem': Memory, root: nat, p: seq<nat>) {
    forall q :: IsPath(q) && |q| <= 3 ==> (Walk(mem', root, q).Table? <==> Walk(mem, root, q).Table? || q == p)
  }

  function Absent(mem: Memory, root: nat, p: seq<nat>): nat { if Walk(mem, root, p).Table? then 0 else 1 }

  lemma OpensRefl(mem: Memory, root: nat, p: seq<nat>)
    requires Walk(mem, root, p).Table?
    ensures Opens(mem, mem, root, p)
  {
  }

  lemma ZeroingHarmless(mem: Memory, root: nat, tables: set<nat>, f: nat)
    requires Tree(mem, root) && Covers(mem, root, tables) && f !in tables
    ensures var mem' := mem[f := Zeroed()];
            Tree(mem', root) && Covers(mem', root, tables) && SamePages(mem, mem', root) && SameOutlook(mem, mem', root)
    ensures forall q :: IsPath(q) ==> Walk(mem[f := Zeroed()], root, q) == Walk(mem, root, q)
  {
    ElsewhereHarmless(mem, mem[f := Zeroed()], root, tables);
  }

  /** Writes to frames that are not tables change no translation. */
  lemma ElsewhereHarmless(mem: Memory, mem': Memory, root: nat, tables: set<nat>)
    requires Tree(mem, root) && Covers(mem, root, tables)
    requires forall t: nat :: t in tables ==> (t in mem <==> t in mem') && (t in mem ==> mem'[t] == mem[t])
    ensures Tree(mem', root) && Covers(mem', root, tables) && SamePages(mem, mem', root) && SameOutlook(mem, mem', root)
    ensures forall q :: IsPath(q) ==> Walk(mem', root, q) == Walk(mem, root, q)
  {
    hide Walk, Follow, Granted, Obstructed;
    forall q | IsPath(q) ensures Walk(mem', root, q) == Walk(mem, root, q) {
      WalkFrame(mem, mem', root, tables, q);
    }
    forall q, j: nat | IsPath(q) && |q| <= 3 && UserPage(mem', Walk(mem', root, q), |q|, j)
      ensures Walk(mem', root, q).user
    {
      assert UserPage(mem, Walk(mem, root, q), |q|, j);
    }
    forall q | IsPath(q) && |q| <= 3
      ensures Granted(mem', root, q) == Granted(mem, root, q) && Obstructed(mem', root, q) == Obstructed(mem, root, q)
    {
      OutlookFrame(mem, mem', root, tables, q);
    }
  }

  lemma {:induction false} OutlookFrame(mem: Memory, mem': Memory, root: nat, tables: set<nat>, q: seq<nat>)
    requires Covers(mem, root, tables) && IsPath(q)
    requires forall t: nat, i: nat :: t in tables ==> Word(mem', t, i) == Word(mem, t, i)
    ensures Granted(mem', root, q) == Granted(mem, root, q) && Obstructed(mem', root, q) == Obstructed(mem, root, q)
    decreases |q|
  {
    hide Walk;
    WalkFrame(mem, mem', root, tables, q);
    if q != [] {
      WalkFrame(mem, mem', root, tables, q[..|q| - 1]);
      OutlookFrame(mem, mem', root, tables, q[..|q| - 1]);
    }
  }

  /** The table below entry `i` of the table `t` at `path`, created when missing. Existing pages
      keep their translations and rights whether it succeeds or not. */
  method NextTable(pool: FramePool, t: nat, i: nat, user: bool, ghost root: nat, ghost path: seq<nat>,
                   ghost tables: set<nat>)
    returns (r: Option<nat>, ghost tables': set<nat>)
    requires Safe(pool, root, tables) && IsPath(path) && |path| < 3 && i < WORDS_PER_FRAME
    requires Walk(pool.mem, root, path).Table? && Walk(pool.mem, root, path).frame == t
    modifies pool
    ensures Safe(pool, root, tables') && pool.base == old(pool.base) && pool.end == old(pool.end)
    ensures OnlyTables(old(pool.mem), old(pool.held), pool.mem, pool.held, tables, tables')
    ensures SamePages(old(pool.mem), pool.mem, root) && SameOutlook(old(pool.mem), pool.mem, root)
    ensures r.Some? ==>
      var a := Walk(pool.mem, root, path + [i]);
      a.Table? && a.frame == r.value && (user && old(Walk(pool.mem, root, path)).user ==> a.user)
    ensures r.Some? ==>
      && Opens(old(pool.mem), pool.mem, root, path + [i])
      && pool.Available() + Absent(old(pool.mem), root, path + [i]) == old(pool.Available())
    ensures r.None? <==>
      || Blocks(old(pool.mem), old(Walk(pool.mem, root, path)), i)
      || Absent(old(pool.mem), root, path + [i]) > old(pool.Available())
  {
    hide Walk, Follow, Addr, Present, Writable, User, Huge, Word, SetWord, WithUser, Granted, Obstructed;
    hide FramePool.Valid, Tree, Covers, SamePages, SameOutlook, Opens;
    ghost var mem0 := pool.mem;
    TableKnown(mem0, root, path, tables);
    pool.PoolFacts();
    WordAt(mem0, t, i);
    WalkSnoc(mem0, root, path, i);
    SameRefl(mem0, root);
    if !Present(pool.mem[t][i]) {
      FollowAbsent(Walk(mem0, root, path), |path|, Word(mem0, t, i), i);
      r, tables' := AddTable(pool, t, i, user, root, path, tables);
      return;
    }
    tables' := tables;
    if Huge(pool.mem[t][i]) { return None, tables; }
    FollowTable(Walk(mem0, root, path), |path|, Word(mem0, t, i), i);
    OpensRefl(mem0, root, path + [i]);
    if user {
      RaisedTable(mem0, root, path, i);
      pool.Store(t, i, WithUser(pool.mem[t][i]));
    }
    WalkSnoc(pool.mem, root, path, i);
    WordAt(pool.mem, t, i);
    FollowTable(Walk(pool.mem, root, path), |path|, Word(pool.mem, t, i), i);
    r := Some(Addr(pool.mem[t][i]));
  }

  method AddTable(pool: FramePool, t: nat, i: nat, user: bool, ghost root: nat, ghost path: seq<nat>,
                  ghost tables: set<nat>)
    returns (r: Option<nat>, ghost tables': set<nat>)
    requires Safe(pool, root, tables) && IsPath(path) && |path| < 3 && i < WORDS_PER_FRAME
    requires Walk(pool.mem, root, path).Table? && Walk(pool.mem, root, path).frame == t
    requires !Present(Word(pool.mem, t, i))
    modifies pool
    ensures Safe(pool, root, tables') && pool.base == old(pool.base) && pool.end == old(pool.end)
    ensures OnlyTables(old(pool.mem), old(pool.held), pool.mem, pool.held, tables, tables')
    ensures SamePages(old(pool.mem), pool.mem, root) && SameOutlook(old(pool.mem), pool.mem, root)
    ensures r.Some? ==>
      var a := old(Walk(pool.mem, root, path));
      && Walk(pool.mem, root, path + [i]) == Table(r.value, a.writable, a.user && user)
      && Opens(old(pool.mem), pool.mem, root, path + [i]) && pool.Available() == old(pool.Available()) - 1
    ensures r.None? <==> old(pool.Available()) == 0
  {
    hide Walk, Follow, Addr, Present, Writable, User, Huge, Word, SetWord, MakeEntry, Zeroed, Granted, Obstructed;
    hide FramePool.Valid, Tree, Covers, SamePages, SameOutlook, Opens;
    ghost var mem0 := pool.mem;
    TableKnown(mem0, root, path, tables);
    SameRefl(mem0, root);
    pool.PoolFacts();
    r := pool.AllocFrame();
    if r.None? { return None, tables; }
    assert pool.mem.Keys == mem0.Keys;
    pool.PoolFacts();
    NewTable(mem0, root, path, i, r.value, user, tables);
    pool.Store(t, i, MakeEntry(r.value, true, user));
    tables' := tables + {r.value};
    OnlyTablesAdd(mem0, pool.mem, tables, t, r.value);
  }

  lemma OnlyTablesAdd(mem: Memory, mem': Memory, tables: set<nat>, t: nat, f: nat)
    requires t in tables && forall g: nat :: g in mem && g != t && g != f ==> g in mem' && mem'[g] == mem[g]
    ensures forall g: nat :: g in mem && g !in tables + {f} ==> g in mem' && mem'[g] == mem[g]
  {
  }

  lemma TableKnown(mem: Memory, root: nat, p: seq<nat>, tables: set<nat>)
    requires Tree(mem, root) && Covers(mem, root, tables) && IsPath(p) && |p| <= 3 && Walk(mem, root, p).Table?
    ensures HasFrame(mem, Walk(mem, root, p).frame) && Walk(mem, root, p).frame in tables
  {
  }

  lemma SameRefl(mem: Memory, root: nat)
    ensures SamePages(mem, mem, root) && SameOutlook(mem, mem, root)
  {
  }

  lemma FollowTable(a: Access, depth: nat, e: nat, i: nat)
    requires a.Table? && Present(e) && !Huge(e) && depth < 3
    ensures Follow(a, depth, e, i) == Table(Addr(e), a.writable && Writable(e), a.user && User(e))
  {
  }

  lemma NewTable(mem: Memory, root: nat, p: seq<nat>, i: nat, f: nat, user: bool, tables: set<nat>)
    requires Tree(mem, root) && Covers(mem, root, tables) && IsPath(p) && |p| < 3 && Walk(mem, root, p).Table?
    requires i < WORDS_PER_FRAME && !Present(Word(mem, Walk(mem, root, p).frame, i))
    requires f !in tables && f % FRAME == 0 && f < PHYS_LIMIT
    ensures var a := Walk(mem, root, p);
            HasFrame(mem, a.frame) &&
            var mem' := SetWord(mem[f := Zeroed()], a.frame, i, MakeEntry(f, true, user));
            && Tree(mem', root) && Covers(mem', root, tables + {f}) && SamePages(mem, mem', root)
            && SameOutlook(mem, mem', root)
            && Walk(mem', root, p + [i]) == Table(f, a.writable, a.user && user) && Opens(mem, mem', root, p + [i])
  {
    hide Walk, Follow, Addr, Present, Writable, User, Huge, Word, SetWord, MakeEntry, Zeroed, Granted, Obstructed;
    var mem1 := mem[f := Zeroed()];
    ZeroingHarmless(mem, root, tables, f);
    AddrOfFrame(f);
    WordAt(mem, Walk(mem, root, p).frame, i);
    WordAt(mem1, Walk(mem, root, p).frame, i);
    CreateTree(mem1, root, p, i, f, tables, user);
    CreateWalk(mem1, root, p, i, f, tables, user, p + [i]);
    WalkSnoc(mem1, root, p, i);
    FollowAbsent(Walk(mem1, root, p), |p|, Word(mem1, Walk(mem1, root, p).frame, i), i);
    forall q | IsPath(q) && |q| <= 3
      ensures var a', b' := Walk(mem1, root, q), Walk(Created(mem1, root, p, i, f, user), root, q);
              (b'.Table? <==> a'.Table? || q == p + [i]) && (a'.Table? ==> Raises(a', b'))
    {
      CreateWalk(mem1, root, p, i, f, tables, user, q);
    }
    forall q | IsPath(q) && |q| <= 3
      ensures var mem' := Created(mem1, root, p, i, f, user);
              Granted(mem', root, q) == Granted(mem1, root, q) && Obstructed(mem', root, q) == Obstructed(mem1, root, q)
    {
      CreateOutlook(mem1, root, p, i, f, tables, user, q);
    }
  }

  lemma RaisedTable(mem: Memory, root: nat, p: seq<nat>, i: nat)
    requires CanRaise(mem, root, p, i)
    ensures HasFrame(mem, Walk(mem, root, p).frame)
    ensures var mem' := Raised(mem, root, p, i);
            && Tree(mem', root) && SamePages(mem, mem', root) && SameOutlook(mem, mem', root)
            && (forall tables :: Covers(mem, root, tables) ==> Covers(mem', root, tables))
            && Walk(mem', root, p) == Walk(mem, root, p)
            && (Walk(mem, root, p + [i]).Table? ==> Opens(mem, mem', root, p + [i]))
  {
    hide Walk, Follow, Addr, Present, Writable, User, Huge, Word, SetWord, WithUser, Granted, Obstructed;
    RaiseTree(mem, root, p, i);
    RaiseWalk(mem, root, p, i, p);
    forall q | IsPath(q) && |q| <= 3
      ensures Raises(Walk(mem, root, q), Walk(Raised(mem, root, p, i), root, q))
    {
      RaiseWalk(mem, root, p, i, q);
    }
    forall q | IsPath(q) && |q| <= 3
      ensures var mem' := Raised(mem, root, p, i);
              Granted(mem', root, q) == Granted(mem, root, q) && Obstructed(mem', root, q) == Obstructed(mem, root, q)
    {
      RaiseOutlook(mem, root, p, i, q);
    }
  }

  lemma {:induction false} LeafOutlook(mem: Memory, root: nat, p: seq<nat>, i: nat, e: nat, q: seq<nat>)
    requires Tree(mem, root) && IsPath(p) && |p| == 3 && Walk(mem, root, p).Table? && i < WORDS_PER_FRAME
    requires IsPath(q) && |q| <= 3
    ensures var mem' := SetWord(mem, Walk(mem, root, p).frame, i, e);
            Granted(mem', root, q) == Granted(mem, root, q) && Obstructed(mem', root, q) == Obstructed(mem, root, q)
    decreases |q|
  {
    hide UserPaths, SetWord, Walk, Word, Follow, Granted, Obstructed, Present, Huge;
    var mem' := SetWord(mem, Walk(mem, root, p).frame, i, e);
    LeafWalk(mem, root, p, i, e, q);
    OutlookStep(mem, root, q);
    OutlookStep(mem', root, q);
    if q != [] {
      var n := |q| - 1;
      LeafOutlook(mem, root, p, i, e, q[..n]);
      LeafWalk(mem, root, p, i, e, q[..n]);
      assert SameTable(Walk(mem, root, q[..n]), Walk(mem, root, p)) ==> q[..n] == p;
    }
  }

  /** The write of the leaf entry: its page is translated, all others are as before. */
  lemma LeafWritten(mem: Memory, root: nat, p: seq<nat>, i: nat, phys: nat, writable: bool, user: bool,
                    tables: set<nat>)
    requires Tree(mem, root) && Covers(mem, root, tables) && IsPath(p) && |p| == 3 && Walk(mem, root, p).Table?
    requires i < WORDS_PER_FRAME
    requires user ==> Walk(mem, root, p).user
    ensures var a := Walk(mem, root, p);
            HasFrame(mem, a.frame) &&
            var mem' := SetWord(mem, a.frame, i, MakeEntry(phys, writable, user));
            && Tree(mem', root) && Covers(mem', root, tables) && SameOutlook(mem, mem', root)
            && Walk(mem', root, p + [i]) == Page(Addr(phys), writable && a.writable, user)
            && (forall q :: IsPath(q) && q != p + [i] ==> Walk(mem', root, q) == Walk(mem, root, q))
  {
    hide Walk, Addr, Present, Writable, User, Huge, SetWord, Word, MakeEntry, Granted, Obstructed;
    var e := MakeEntry(phys, writable, user);
    var t := Walk(mem, root, p).frame;
    var mem' := SetWord(mem, t, i, e);
    LeafTree(mem, root, p, i, e);
    forall q | IsPath(q) && q != p + [i] ensures Walk(mem', root, q) == Walk(mem, root, q) {
      LeafWalk(mem, root, p, i, e, q);
    }
    WalkSnoc(mem', root, p, i);
    assert p != p + [i];
    LeafAddr(phys);
    forall q | IsPath(q) && |q| <= 3
      ensures Granted(mem', root, q) == Granted(mem, root, q) && Obstructed(mem', root, q) == Obstructed(mem, root, q)
    {
      LeafOutlook(mem, root, p, i, e, q);
    }
  }

  lemma LeafAddr(phys: nat)
    ensures Addr(phys) / Span(3) * Span(3) == Addr(phys)
  {
  }

  lemma OnlyTablesTrans(m0: Memory, h0: set<nat>, m1: Memory, h1: set<nat>, m2: Memory, h2: set<nat>, t0: set<nat>,
                        t1: set<nat>, t2: set<nat>)
    requires OnlyTables(m0, h0, m1, h1, t0, t1) && OnlyTables(m1, h1, m2, h2, t1, t2)
    ensures OnlyTables(m0, h0, m2, h2, t0, t2)
  {
  }

  /** Since the walk began in memory `mem0`, only tables were added, no page has changed, and the
      first `n` indices of `path` lead to table `t`. */
  ghost predicate Reached(pool: FramePool, root: nat, path: seq<nat>, n: nat, t: nat, user: bool,
                          mem0: Memory, held0: set<nat>, available0: nat, tables0: set<nat>, tables: set<nat>)
    reads pool
  {
    && Safe(pool, root, tables) && OnlyTables(mem0, held0, pool.mem, pool.held, tables0, tables)
    && SamePages(mem0, pool.mem, root) && SameOutlook(mem0, pool.mem, root)
    && IsPath(path) && n <= |path| == 3 && !Obstructed(mem0, root, path[..n])
    && OpensUpTo(mem0, pool.mem, root, path, n)
    && pool.Available() + Missing(mem0, root, path, n) == available0
    && var a := Walk(pool.mem, root, path[..n]); a.Table? && a.frame == t && (user ==> a.user)
  }

  /** One of the three calls of `next_table`. */
  method Deeper(pool: FramePool, t: nat, path: seq<nat>, n: nat, user: bool, ghost root: nat,
                ghost mem0: Memory, ghost held0: set<nat>, ghost available0: nat, ghost tables0: set<nat>,
                  ghost tables: set<nat>)
    returns (r: Option<nat>, ghost tables': set<nat>)
    requires n < 3 && Reached(pool, root, path, n, t, user, mem0, held0, available0, tables0, tables)
    modifies pool
    ensures pool.base == old(pool.base) && pool.end == old(pool.end)
    ensures Safe(pool, root, tables') && OnlyTables(mem0, held0, pool.mem, pool.held, tables0, tables')
    ensures SamePages(mem0, pool.mem, root) && SameOutlook(mem0, pool.mem, root)
    ensures r.Some? ==> Reached(pool, root, path, n + 1, r.value, user, mem0, held0, available0, tables0, tables')
    ensures r.None? ==> Obstructed(mem0, root, path) || Missing(mem0, root, path, 3) > available0
  {
    hide Walk, FramePool.Valid, Tree, Covers, SamePages, SameOutlook, Granted, Obstructed, Blocks, Opens, OpensUpTo;
    hide Missing;
    ghost var mem1, held1 := pool.mem, pool.held;
    r, tables' := NextTable(pool, t, path[n], user, root, path[..n], tables);
    assert path[..n + 1] == path[..n] + [path[n]];
    OutlookSnoc(mem1, root, path[..n], path[n]);
    OnlyTablesTrans(mem0, held0, mem1, held1, pool.mem, pool.held, tables0, tables, tables');
    SameTrans(mem0, mem1, pool.mem, root);
    ObstructedBelow(mem0, root, path[..n + 1], path);
    OutlookAt(mem0, mem1, root, path[..n]);
    OutlookAt(mem0, mem1, root, path[..n + 1]);
    OpensMore(mem0, mem1, pool.mem, root, path, n, r.Some?);
  }

  /** The tables on the first `n` levels of the path exist now, and no others have come into being. */
  ghost predicate OpensUpTo(mem: Memory, mem': Memory, root: nat, path: seq<nat>, n: nat) {
    forall q :: IsPath(q) && |q| <= 3 ==>
      (Walk(mem', root, q).Table? <==> Walk(mem, root, q).Table? || (q <= path && |q| <= n))
  }

  lemma OpensMore(mem: Memory, mem1: Memory, mem2: Memory, root: nat, path: seq<nat>, n: nat, done: bool)
    requires IsPath(path) && n < |path| == 3 && OpensUpTo(mem, mem1, root, path, n)
    requires done ==> Opens(mem1, mem2, root, path[..n + 1])
    ensures done ==> OpensUpTo(mem, mem2, root, path, n + 1)
    ensures Absent(mem1, root, path[..n + 1]) == Absent(mem, root, path[..n + 1])
    ensures Missing(mem, root, path, n + 1) == Missing(mem, root, path, n) + Absent(mem, root, path[..n + 1])
    ensures Missing(mem, root, path, n + 1) <= Missing(mem, root, path, 3)
  {
    hide Walk;
    assert IsPath(path[..n + 1]);
    forall q | IsPath(q) && |q| <= 3
      ensures q <= path && |q| <= n + 1 <==> (q <= path && |q| <= n) || q == path[..n + 1]
    {
      if q <= path && |q| == n + 1 { assert q == path[..n + 1]; }
    }
  }

  lemma OutlookAt(mem: Memory, mem': Memory, root: nat, q: seq<nat>)
    requires SameOutlook(mem, mem', root) && IsPath(q) && |q| <= 3
    ensures Obstructed(mem', root, q) == Obstructed(mem, root, q) && Granted(mem', root, q) == Granted(mem, root, q)
  {
    hide Granted, Obstructed;
  }

  /** The way down to the last table for `path`, as the first half of `map_page` takes it. */
  method Descend(pool: FramePool, root: nat, path: seq<nat>, user: bool, ghost tables: set<nat>)
    returns (r: Option<nat>, ghost tables': set<nat>)
    requires Safe(pool, root, tables) && IsPath(path) && |path| == 3
    modifies pool
    ensures Safe(pool, root, tables') && pool.base == old(pool.base) && pool.end == old(pool.end)
    ensures OnlyTables(old(pool.mem), old(pool.held), pool.mem, pool.held, tables, tables')
    ensures SamePages(old(pool.mem), pool.mem, root) && SameOutlook(old(pool.mem), pool.mem, root)
    ensures r.Some? ==>
      var a := Walk(pool.mem, root, path);
      a.Table? && a.frame == r.value && (user ==> a.user) && a.writable == Granted(old(pool.mem), root, path)
    ensures r.Some? <==>
      !Obstructed(old(pool.mem), root, path) && Missing(old(pool.mem), root, path, 3) <= old(pool.Available())
    ensures r.Some? ==>
      && OpensUpTo(old(pool.mem), pool.mem, root, path, 3)
      && pool.Available() + Missing(old(pool.mem), root, path, 3) == old(pool.Available())
  {
    hide Walk, FramePool.Valid, FramePool.Available, Tree, Covers, SamePages, SameOutlook, Granted, Obstructed, Safe;
    hide OnlyTables, OpensUpTo;
    ghost var mem0, held0, available0 := pool.mem, pool.held, pool.Available();
    OpensNone(mem0, root, path);
    WalkEmpty(mem0, root);
    OutlookStep(mem0, root, []);
    SameRefl(mem0, root);
    assert path[..0] == [] && path[..3] == path;
    assert OnlyTables(mem0, held0, mem0, held0, tables, tables) by { OnlyTablesRefl(mem0, held0, tables); }
    r, tables' := Deeper(pool, root, path, 0, user, root, mem0, held0, available0, tables, tables);
    if r.None? { return; }
    r, tables' := Deeper(pool, r.value, path, 1, user, root, mem0, held0, available0, tables, tables');
    if r.None? { return; }
    r, tables' := Deeper(pool, r.value, path, 2, user, root, mem0, held0, available0, tables, tables');
    OutlookStep(pool.mem, root, path);
    OutlookAt(mem0, pool.mem, root, path);
  }

  lemma OpensNone(mem: Memory, root: nat, path: seq<nat>)
    ensures OpensUpTo(mem, mem, root, path, 0)
  {
    WalkEmpty(mem, root);
  }

  lemma OpensKept(mem: Memory, mem1: Memory, mem2: Memory, root: nat, path: seq<nat>)
    requires OpensUpTo(mem, mem1, root, path, 3)
    requires forall q :: IsPath(q) && |q| <= 3 ==> Walk(mem2, root, q) == Walk(mem1, root, q)
    ensures OpensUpTo(mem, mem2, root, path, 3)
  {
    hide Walk;
  }

  lemma OnlyTablesRefl(mem: Memory, held: set<nat>, tables: set<nat>)
    ensures OnlyTables(mem, held, mem, held, tables, tables)
  {
  }

  lemma SameTrans(m0: Memory, m1: Memory, m2: Memory, root: nat)
    requires SamePages(m0, m1, root) && SameOutlook(m0, m1, root) && SamePages(m1, m2, root)
    requires SameOutlook(m1, m2, root)
    ensures SamePages(m0, m2, root) && SameOutlook(m0, m2, root)
  {
    hide Walk, Granted, Obstructed;
  }

  lemma {:induction false} ObstructedBelow(mem: Memory, root: nat, p: seq<nat>, q: seq<nat>)
    requires p <= q
    ensures Obstructed(mem, root, p) ==> Obstructed(mem, root, q)
    decreases |q|
  {
    hide Walk;
    if p != q {
      assert p <= q[..|q| - 1];
      ObstructedBelow(mem, root, p, q[..|q| - 1]);
    }
  }

  /** `map_page` refines a finite map from pages to frames and rights. */
  method MapPage(pool: FramePool, pml4: nat, virt: nat, phys: nat, writable: bool, user: bool, ghost tables: set<nat>)
    returns (ok: bool, ghost tables': set<nat>)
    requires Safe(pool, Addr(pml4), tables)
    modifies pool
    ensures Safe(pool, Addr(pml4), tables') && pool.base == old(pool.base) && pool.end == old(pool.end)
    ensures OnlyTables(old(pool.mem), old(pool.held), pool.mem, pool.held, tables, tables')
    ensures ok ==> Walk(pool.mem, Addr(pml4), PathOf(virt)) ==
                     Page(Addr(phys), writable && Granted(old(pool.mem), Addr(pml4), PathOf(virt)[..3]), user)
    ensures forall q :: IsPath(q) && |q| == 4 && !(ok && q == PathOf(virt)) ==>
              Walk(pool.mem, Addr(pml4), q) == Walk(old(pool.mem), Addr(pml4), q)
    ensures SameOutlook(old(pool.mem), pool.mem, Addr(pml4))
    ensures ok <==>
      && !Obstructed(old(pool.mem), Addr(pml4), PathOf(virt)[..3])
      && Missing(old(pool.mem), Addr(pml4), PathOf(virt)[..3], 3) <= old(pool.Available())
    ensures ok ==>
      && OpensUpTo(old(pool.mem), pool.mem, Addr(pml4), PathOf(virt)[..3], 3)
      && pool.Available() + Missing(old(pool.mem), Addr(pml4), PathOf(virt)[..3], 3) == old(pool.Available())
  {
    hide Walk, Addr, FramePool.Valid, Tree, Covers, Granted, Obstructed, Missing, SetWord, MakeEntry, PathOf, OpensUpTo;
    var root := Addr(pml4);
    var path := PathOf(virt);
    var pt;
    pt, tables' := Descend(pool, root, path[..3], user, tables);
    if pt.None? { return false, tables'; }
    ghost var mem1 := pool.mem;
    TableKnown(mem1, root, path[..3], tables');
    LeafWritten(mem1, root, path[..3], path[3], phys, writable, user, tables');
    assert path == path[..3] + [path[3]];
    pool.PoolFacts();
    pool.Store(pt.value, path[3], MakeEntry(phys, writable, user));
    OpensKept(old(pool.mem), mem1, pool.mem, root, path[..3]);
    ok := true;
  }

  // ----- A copied root -----

  /** Below the root, a copy of the root leads where the original does. */
  lemma {:induction false} CloneWalk(mem: Memory, src: nat, dst: nat, tables: set<nat>, q: seq<nat>)
    requires Tree(mem, src) && Covers(mem, src, tables) && HasFrame(mem, src) && dst !in tables && IsPath(q)
    ensures var mem' := mem[dst := mem[src]];
            Walk(mem', dst, q) == if q == [] then Table(dst, true, true) else Walk(mem, src, q)
    decreases |q|
  {
    hide Walk, Follow, UserPaths, TablesDistinct;
    var mem' := mem[dst := mem[src]];
    WalkEmpty(mem, src);
    WalkEmpty(mem', dst);
    if q != [] {
      var n := |q| - 1;
      CloneWalk(mem, src, dst, tables, q[..n]);
      WalkStep(mem, src, q);
      WalkStep(mem', dst, q);
      if q[..n] == [] { FollowFrame(Table(dst, true, true), Table(src, true, true), n, Word(mem, src, q[n]), q[n]); }
    }
  }

  lemma FollowFrame(a: Access, b: Access, depth: nat, e: nat, i: nat)
    requires a.Table? && b.Table? && a.writable == b.writable && a.user == b.user
    ensures Follow(a, depth, e, i) == Follow(b, depth, e, i)
  {
  }

  lemma {:induction false} CloneOutlook(mem: Memory, src: nat, dst: nat, tables: set<nat>, q: seq<nat>)
    requires Tree(mem, src) && Covers(mem, src, tables) && HasFrame(mem, src) && dst !in tables && IsPath(q)
    ensures var mem' := mem[dst := mem[src]];
            Granted(mem', dst, q) == Granted(mem, src, q) && Obstructed(mem', dst, q) == Obstructed(mem, src, q)
    decreases |q|
  {
    hide Walk, Tree, Granted, Obstructed;
    var mem' := mem[dst := mem[src]];
    CloneWalk(mem, src, dst, tables, q);
    OutlookStep(mem, src, q);
    OutlookStep(mem', dst, q);
    WalkEmpty(mem, src);
    if q != [] {
      CloneOutlook(mem, src, dst, tables, q[..|q| - 1]);
      CloneWalk(mem, src, dst, tables, q[..|q| - 1]);
    }
  }

  lemma CloneTree(mem: Memory, src: nat, dst: nat, tables: set<nat>)
    requires Tree(mem, src) && Covers(mem, src, tables) && dst !in tables && HasFrame(mem, src)
    ensures var mem' := mem[dst := mem[src]]; Tree(mem', dst) && Covers(mem', dst, tables - {src} + {dst})
  {
    hide Walk;
    var mem' := mem[dst := mem[src]];
    WalkEmpty(mem, src);
    forall q | IsPath(q) ensures Walk(mem', dst, q) == if q == [] then Table(dst, true, true) else Walk(mem, src, q) {
      CloneWalk(mem, src, dst, tables, q);
    }
    forall q | IsPath(q) && |q| <= 3 && q != [] && Walk(mem, src, q).Table? ensures Walk(mem, src, q).frame != src {
      assert SameTable(Walk(mem, src, []), Walk(mem, src, q)) ==> q == [];
    }
    forall q, j: nat | IsPath(q) && |q| <= 3 && UserPage(mem', Walk(mem', dst, q), |q|, j)
      ensures Walk(mem', dst, q).user
    {
      assert q != [] ==> UserPage(mem, Walk(mem, src, q), |q|, j);
    }
    forall p, q | IsPath(p) && IsPath(q) && |p| <= 3 && |q| <= 3 && SameTable(Walk(mem', dst, p), Walk(mem', dst, q))
      ensures p == q
    {
      if p != [] && q != [] { assert SameTable(Walk(mem, src, p), Walk(mem, src, q)); }
    }
  }

  /** A new process starts with a copy of the current root: both trees are in order, and every page is
      translated alike in both. */
  method ClonePml4(pool: FramePool, src: nat, dst: nat, ghost tables: set<nat>)
    requires Safe(pool, src, tables) && HasFrame(pool.mem, dst) && dst !in tables && !pool.InPool(dst)
    modifies pool`mem
    ensures Safe(pool, src, tables) && Safe(pool, dst, tables - {src} + {dst})
    ensures src in old(pool.mem) && pool.mem == old(pool.mem)[dst := old(pool.mem)[src]]
    ensures forall q :: IsPath(q) && q != [] ==> Walk(pool.mem, dst, q) == Walk(old(pool.mem), src, q)
    ensures forall q :: IsPath(q) ==> Walk(pool.mem, src, q) == Walk(old(pool.mem), src, q)
    ensures forall q :: IsPath(q) ==>
      Granted(pool.mem, dst, q) == Granted(old(pool.mem), src, q) &&
        Obstructed(pool.mem, dst, q) == Obstructed(old(pool.mem), src, q)
  {
    hide Walk, Tree, Covers, Granted, Obstructed, FramePool.Valid;
    ghost var mem0 := pool.mem;
    WalkEmpty(mem0, src);
    TableKnown(mem0, src, [], tables);
    pool.PoolFacts();
    pool.CopyFrame(src, dst);
    CloneTree(mem0, src, dst, tables);
    ElsewhereHarmless(mem0, pool.mem, src, tables);
    forall q | IsPath(q)
      ensures q != [] ==> Walk(pool.mem, dst, q) == Walk(mem0, src, q)
      ensures Granted(pool.mem, dst, q) == Granted(mem0, src, q)
      ensures Obstructed(pool.mem, dst, q) == Obstructed(mem0, src, q)
    {
      CloneWalk(mem0, src, dst, tables, q);
      CloneOutlook(mem0, src, dst, tables, q);
    }
  }

  /** A root whose first entry is a read-only, empty table. */
  function ReadOnlyBelow(root: nat, table: nat): (mem: Memory)
    requires root != table
    ensures HasFrame(mem, root) && HasFrame(mem, table)
    ensures forall f: nat, i: nat :: Word(mem, f, i) == if f == root && i == 0 then MakeEntry(table, false, true) else 0
  {
    var words: seq<nat> := Zeroed()[0 := MakeEntry(table, false, true)];
    map[root := words, table := Zeroed()]
  }

  lemma {:induction false} ReadOnlyWalk(root: nat, table: nat, q: seq<nat>)
    requires root != table && Addr(table) == table
    ensures Walk(ReadOnlyBelow(root, table), root, q) ==
      if q == [] then Table(root, true, true) else if q == [0] then Table(table, false, true) else Fault
    decreases |q|
  {
    hide ReadOnlyBelow, MakeEntry, Walk, Word, Addr, Writable, User, Huge;
    var mem := ReadOnlyBelow(root, table);
    WalkEmpty(mem, root);
    if q != [] {
      WalkStep(mem, root, q);
      ReadOnlyWalk(root, table, q[..|q| - 1]);
      assert q == [0] <==> q[..|q| - 1] == [] && q[|q| - 1] == 0;
    }
  }

  /** An input on which a writable page is asked for and not granted: `map_page` leaves the read-only
      table on its path as it is. */
  lemma WithheldWrite(root: nat, table: nat)
    requires root != table && Addr(table) == table
    ensures var mem := ReadOnlyBelow(root, table);
            && Tree(mem, root) && Covers(mem, root, {root, table})
            && !Granted(mem, root, PathOf(0)[..3]) && !Obstructed(mem, root, PathOf(0)[..3])
  {
    hide ReadOnlyBelow, MakeEntry, Walk, Word, Addr, Writable, User, Huge, Granted, Obstructed;
    var mem := ReadOnlyBelow(root, table);
    forall q ensures Walk(mem, root, q) ==
        if q == [] then Table(root, true, true) else if q == [0] then Table(table, false, true) else Fault
    {
      ReadOnlyWalk(root, table, q);
    }
    FirstPath();
    OutlookSnocs(mem, root);
  }

  lemma FirstPath()
    ensures PathOf(0)[..3] == [0, 0, 0]
  {
  }

  lemma OutlookSnocs(mem: Memory, root: nat)
    requires Walk(mem, root, []) == Table(root, true, true) && Walk(mem, root, [0]).Table?
    requires !Walk(mem, root, [0]).writable
    requires Walk(mem, root, [0, 0]) == Fault && Walk(mem, root, [0, 0, 0]) == Fault
    requires Walk(mem, root, [0]).frame != root && !Huge(Word(mem, root, 0))
    requires Word(mem, Walk(mem, root, [0]).frame, 0) == 0
    ensures !Granted(mem, root, [0, 0, 0]) && !Obstructed(mem, root, [0, 0, 0])
  {
    hide Walk, Word, Granted, Obstructed;
    assert [0, 0, 0][..2] == [0, 0];
    assert [0, 0][..1] == [0];
    assert [0][..0] == [];
    OutlookStep(mem, root, [0, 0, 0]);
    OutlookStep(mem, root, [0, 0]);
    OutlookStep(mem, root, [0]);
    OutlookStep(mem, root, []);
  }
}
