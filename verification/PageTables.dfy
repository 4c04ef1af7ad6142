/** Four-level page tables in physical memory, and the translation the processor derives from them
    (AMD64 Architecture Programmer's Manual, Volume 2, section 5.3). */
module PageTables {
  import opened Frames

  // ----- Entries -----

  const ADDRESSES := 0x100_0000_0000

  predicate Present(e: nat) { e % 2 == 1 }
  predicate Writable(e: nat) { e / 2 % 2 == 1 }
  predicate User(e: nat) { e / 4 % 2 == 1 }
  predicate Huge(e: nat) { e / 128 % 2 == 1 }

  /** Bits 12 to 51. */
  function Addr(e: nat): nat { e / FRAME % ADDRESSES * FRAME }

  /** The low three bits and the rest. */
  lemma LowBits(q: nat, r: nat)
    requires r < 8
    ensures (8 * q + r) % 2 == r % 2 && (8 * q + r) / 2 % 2 == r / 2 % 2 && (8 * q + r) / 4 % 2 == r / 4
    ensures (8 * q + r) / 128 == q / 16 && (8 * q + r) / FRAME == q / 512
  {
    FlagBits(q, r);
    HighBits(q, r);
  }

  lemma FlagBits(q: nat, r: nat)
    requires r < 8
    ensures (8 * q + r) % 2 == r % 2 && (8 * q + r) / 2 % 2 == r / 2 % 2 && (8 * q + r) / 4 % 2 == r / 4
  {
    HalfIs(8 * q + r, 4 * q + r / 2, r % 2);
    HalfIs(4 * q + r / 2, 2 * q + r / 4, r / 2 % 2);
    HalfIs(2 * q + r / 4, q, r / 4);
    QuarterIs(8 * q + r, 2 * q + r / 4, r % 4);
  }

  lemma HalfIs(n: nat, k: nat, m: nat)
    requires n == 2 * k + m && m < 2
    ensures n / 2 == k && n % 2 == m
  {
  }

  lemma QuarterIs(n: nat, k: nat, m: nat)
    requires n == 4 * k + m && m < 4
    ensures n / 4 == k
  {
  }

  lemma HighBits(q: nat, r: nat)
    requires r < 8
    ensures (8 * q + r) / 128 == q / 16 && (8 * q + r) / FRAME == q / 512
  {
    var a, b := q / 16, q / 512;
    assert 128 * a <= 8 * q + r < 128 * a + 128;
    assert FRAME * b <= 8 * q + r < FRAME * b + FRAME;
  }

  function MakeEntry(frame: nat, writable: bool, user: bool): (e: nat)
    ensures Present(e) && (Writable(e) <==> writable) && (User(e) <==> user) && !Huge(e) && Addr(e) == Addr(frame)
  {
    var a := frame / FRAME % ADDRESSES;
    var r := 1 + (if writable then 2 else 0) + (if user then 4 else 0);
    LowBits(512 * a, r);
    assert 512 * a / 512 == a && 512 * a / 16 == 2 * (16 * a);
    Addr(frame) + r
  }

  function WithUser(e: nat): (r: nat)
    ensures User(r) && (Present(r) <==> Present(e)) && (Writable(r) <==> Writable(e)) && (Huge(r) <==> Huge(e))
    ensures Addr(r) == Addr(e)
  {
    LowBits(e / 8, e % 8);
    if User(e) then e
    else
      LowBits(e / 8, e % 8 + 4);
      assert e + 4 == 8 * (e / 8) + (e % 8 + 4);
      e + 4
  }

  lemma AddrOfFrame(f: nat)
    requires f % FRAME == 0 && f < PHYS_LIMIT
    ensures Addr(f) == f
  {
  }

  // ----- The hardware walk -----

  /** The indices used so far on the way down, at most four. */
  ghost predicate IsPath(path: seq<nat>) {
    |path| <= 4 && forall k :: 0 <= k < |path| ==> path[k] < WORDS_PER_FRAME
  }

  /** What the processor has found: nothing, the next table, or a page; with the permissions so far. */
  datatype Access =
    | Fault
    | Table(frame: nat, writable: bool, user: bool)
    | Page(frame: nat, writable: bool, user: bool)

  /** Bytes mapped by an entry that is reached after `depth` others. */
  function Span(depth: nat): (r: nat)
    ensures r > 0
  {
    if depth == 0 then 0x80_0000_0000 else if depth == 1 then 0x4000_0000 else if depth == 2 then 0x20_0000 else FRAME
  }

  predicate MapsPage(e: nat, depth: nat) { depth == 3 || (depth > 0 && Huge(e)) }

  /** One level of the walk; inside a large page the remaining indices are an offset. */
  function Follow(a: Access, depth: nat, e: nat, i: nat): Access {
    match a
    case Fault => Fault
    case Page(f, w, u) => Page(f + i * Span(depth), w, u)
    case Table(_, w, u) =>
      if !Present(e) then Fault
      else if MapsPage(e, depth) then Page(Addr(e) / Span(depth) * Span(depth), w && Writable(e), u && User(e))
      else if Huge(e) then Fault
      else Table(Addr(e), w && Writable(e), u && User(e))
  }

  function Walk(mem: Memory, root: nat, path: seq<nat>): Access
    decreases |path|
  {
    if path == [] then Table(root, true, true)
    else
      var n := |path| - 1;
      var a := Walk(mem, root, path[..n]);
      Follow(a, n, if a.Table? then Word(mem, a.frame, path[n]) else 0, path[n])
  }

  lemma WalkEmpty(mem: Memory, root: nat)
    ensures Walk(mem, root, []) == Table(root, true, true)
  {
  }

  lemma WalkStep(mem: Memory, root: nat, q: seq<nat>)
    requires q != []
    ensures var n := |q| - 1;
            var a := Walk(mem, root, q[..n]);
            Walk(mem, root, q) == Follow(a, n, if a.Table? then Word(mem, a.frame, q[n]) else 0, q[n])
  {
  }

  lemma WalkSnoc(mem: Memory, root: nat, path: seq<nat>, i: nat)
    ensures var a := Walk(mem, root, path);
            Walk(mem, root, path + [i]) == Follow(a, |path|, if a.Table? then Word(mem, a.frame, i) else 0, i)
  {
    assert (path + [i])[..|path|] == path;
  }

  /** The page of a virtual address. */
  function PathOf(virt: nat): (path: seq<nat>)
    ensures IsPath(path) && |path| == 4
  {
    [virt / 0x80_0000_0000 % 512, virt / 0x4000_0000 % 512, virt / 0x20_0000 % 512, virt / FRAME % 512]
  }

  /** Distinct pages of the lower half have distinct paths. */
  lemma PathOfInjective(v: nat, w: nat)
    requires v < 0x1_0000_0000_0000 && w < 0x1_0000_0000_0000 && PathOf(v) == PathOf(w)
    ensures v / FRAME == w / FRAME
  {
    PathNumber(v);
    PathNumber(w);
  }

  lemma PathNumber(v: nat)
    requires v < 0x1_0000_0000_0000
    ensures var p := PathOf(v); v / FRAME == p[0] * 0x800_0000 + p[1] * 0x4_0000 + p[2] * 512 + p[3]
  {
    var n := v / FRAME;
    var a := n / 512;
    var b := a / 512;
    var c := b / 512;
    assert v / 0x20_0000 == a;
    assert v / 0x4000_0000 == b;
    assert v / 0x80_0000_0000 == c;
    assert n == a * 512 + n % 512 && a == b * 512 + a % 512 && b == c * 512 + b % 512 && c < 512;
  }

  // ----- The invariant: a tree of distinct tables, where every user page has an all-user path -----

  ghost predicate TablesPresent(mem: Memory, root: nat) {
    forall p :: IsPath(p) && |p| <= 3 && Walk(mem, root, p).Table? ==> HasFrame(mem, Walk(mem, root, p).frame)
  }

  predicate SameTable(a: Access, b: Access) { a.Table? && b.Table? && a.frame == b.frame }

  ghost predicate TablesDistinct(mem: Memory, root: nat) {
    forall p, q :: IsPath(p) && IsPath(q) && |p| <= 3 && |q| <= 3 ==>
      (SameTable(Walk(mem, root, p), Walk(mem, root, q)) ==> p == q)
  }

  /** The entry grants user access to a page below a table reached with `a`. */
  predicate UserPage(mem: Memory, a: Access, depth: nat, i: nat) {
    a.Table? && var e := Word(mem, a.frame, i); Present(e) && User(e) && MapsPage(e, depth)
  }

  ghost predicate UserPaths(mem: Memory, root: nat) {
    forall p, i: nat :: IsPath(p) && |p| <= 3 && UserPage(mem, Walk(mem, root, p), |p|, i) ==> Walk(mem, root, p).user
  }

  ghost predicate Tree(mem: Memory, root: nat) {
    TablesPresent(mem, root) && TablesDistinct(mem, root) && UserPaths(mem, root)
  }

  ghost predicate Covers(mem: Memory, root: nat, tables: set<nat>) {
    forall p :: IsPath(p) && |p| <= 3 && Walk(mem, root, p).Table? ==> Walk(mem, root, p).frame in tables
  }

  /** Every page has the same translation and effective permissions. */
  ghost predicate SamePages(mem: Memory, mem': Memory, root: nat) {
    forall q :: IsPath(q) && |q| == 4 ==> Walk(mem', root, q) == Walk(mem, root, q)
  }

  /** No table that exists along the path withholds write permission. */
  function Granted(mem: Memory, root: nat, path: seq<nat>): bool
    decreases |path|
  {
    match Walk(mem, root, path)
    case Table(_, w, _) => w
    case _ => path == [] || Granted(mem, root, path[..|path| - 1])
  }

  /** A large page, or a large-page bit where none is allowed, stands on the path. */
  predicate Obstructed(mem: Memory, root: nat, path: seq<nat>)
    decreases |path|
  {
    path != [] &&
    var n := |path| - 1;
    var a := Walk(mem, root, path[..n]);
    (Obstructed(mem, root, path[..n]) || Blocks(mem, a, path[n]))
  }

  /** How many of the first `n` tables on the path do not exist. */
  function Missing(mem: Memory, root: nat, path: seq<nat>, n: nat): nat
    requires n <= |path|
  {
    if n == 0 then 0
    else Missing(mem, root, path, n - 1) + (if Walk(mem, root, path[..n]).Table? then 0 else 1)
  }

  /** An entry that `next_table` refuses. */
  predicate Blocks(mem: Memory, a: Access, i: nat) {
    a.Table? && Present(Word(mem, a.frame, i)) && Huge(Word(mem, a.frame, i))
  }

  lemma OutlookStep(mem: Memory, root: nat, q: seq<nat>)
    ensures Granted(mem, root, q) ==
            if Walk(mem, root, q).Table? then Walk(mem, root, q).writable
            else q == [] || Granted(mem, root, q[..|q| - 1])
    ensures Obstructed(mem, root, q) <==>
            q != [] && (Obstructed(mem, root, q[..|q| - 1]) || Blocks(mem, Walk(mem, root, q[..|q| - 1]), q[|q| - 1]))
  {
    hide Walk;
  }

  lemma OutlookSnoc(mem: Memory, root: nat, p: seq<nat>, i: nat)
    ensures Obstructed(mem, root, p + [i]) <==> Obstructed(mem, root, p) || Blocks(mem, Walk(mem, root, p), i)
  {
    hide Walk, Blocks;
    OutlookStep(mem, root, p + [i]);
    assert (p + [i])[..|p|] == p;
  }

  // ----- Changes outside the tables -----

  lemma {:induction false} WalkFrame(mem: Memory, mem': Memory, root: nat, tables: set<nat>, path: seq<nat>)
    requires IsPath(path) && Covers(mem, root, tables)
    requires forall t: nat, i: nat :: t in tables ==> Word(mem', t, i) == Word(mem, t, i)
    ensures Walk(mem', root, path) == Walk(mem, root, path)
    decreases |path|
  {
    if path != [] {
      WalkFrame(mem, mem', root, tables, path[..|path| - 1]);
    }
  }
}
