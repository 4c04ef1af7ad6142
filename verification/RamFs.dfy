/** The RAM file system: the node table and the byte pool as the kernel updates them in place. */
module RamFs {
  import opened Words
  import opened RamTree

  // ----- Extents of the pool -----

  /** Every file's extent lies below the bump pointer, and no two overlap. */
  ghost predicate Extents(ns: seq<Node>, next: nat) {
    && (forall i :: 0 <= i < |ns| && ns[i].kind == File ==> ns[i].len <= ns[i].cap && ns[i].off + ns[i].cap <= next)
    && (forall i, j :: 0 <= i < |ns| && 0 <= j < |ns| && i != j && ns[i].kind == File && ns[j].kind == File ==>
         Apart(ns[i], ns[j]))
  }

  predicate Apart(a: Node, b: Node) { a.off + a.cap <= b.off || b.off + b.cap <= a.off }

  ghost function ContentOf(n: Node, data: seq<byte>): seq<byte>
    requires n.kind == File ==> n.off + n.len <= |data|
  {
    if n.kind == File then data[n.off..n.off + n.len] else []
  }

  /** What each node holds, as a plain table of byte strings. */
  ghost function ContentsOf(ns: seq<Node>, next: nat, data: seq<byte>): (r: seq<seq<byte>>)
    requires Extents(ns, next) && next <= |data|
    ensures |r| == |ns| && forall i :: 0 <= i < |ns| ==> r[i] == ContentOf(ns[i], data)
  {
    seq(|ns|, i requires 0 <= i < |ns| => ContentOf(ns[i], data))
  }

  /** `d` was put at `off`. */
  function Patched(data: seq<byte>, off: nat, d: seq<byte>): (r: seq<byte>)
    requires off + |d| <= |data|
    ensures |r| == |data| && r[off..off + |d|] == d
    ensures forall k :: 0 <= k < |data| && !(off <= k < off + |d|) ==> r[k] == data[k]
  {
    data[..off] + d + data[off + |d|..]
  }

  /** A file gets new content at `off`, in a place no other file uses. */
  lemma StoredContents(ns: seq<Node>, next: nat, data: seq<byte>, node: nat, n': Node, next': nat, d: seq<byte>)
    requires Extents(ns, next) && next <= next' <= |data| && node < |ns| && ns[node].kind == File && n'.kind == File
    requires n'.len == |d| && n'.off + |d| <= n'.off + n'.cap <= next'
    requires forall j :: 0 <= j < |ns| && j != node && ns[j].kind == File ==> Apart(n', ns[j])
    ensures Extents(ns[node := n'], next')
    ensures ContentsOf(ns[node := n'], next', Patched(data, n'.off, d)) == ContentsOf(ns, next, data)[node := d]
  {
    var ns', data' := ns[node := n'], Patched(data, n'.off, d);
    forall i | 0 <= i < |ns| && i != node ensures ContentOf(ns'[i], data') == ContentOf(ns[i], data) {
      if ns[i].kind == File {
        assert Apart(n', ns[i]);
      }
    }
    assert ContentOf(n', data') == d;
  }

  lemma StoredInPlace(ns: seq<Node>, next: nat, data: seq<byte>, node: nat, d: seq<byte>)
    requires Extents(ns, next) && next <= |data| && node < |ns| && ns[node].kind == File && |d| <= ns[node].cap
    ensures var n' := ns[node].(len := |d|);
            && n'.off + |d| <= |data| && Extents(ns[node := n'], next)
            && ContentsOf(ns[node := n'], next, Patched(data, n'.off, d)) == ContentsOf(ns, next, data)[node := d]
  {
    hide ContentsOf;
    StoredContents(ns, next, data, node, ns[node].(len := |d|), next, d);
  }

  lemma StoredAtEnd(ns: seq<Node>, next: nat, data: seq<byte>, node: nat, d: seq<byte>)
    requires Extents(ns, next) && next + |d| <= |data| && node < |ns| && ns[node].kind == File
    ensures var n' := ns[node].(off := next, len := |d|, cap := |d|);
            && Extents(ns[node := n'], next + |d|)
            && ContentsOf(ns[node := n'], next + |d|, Patched(data, next, d)) == ContentsOf(ns, next, data)[node := d]
  {
    hide ContentsOf;
    StoredContents(ns, next, data, node, ns[node].(off := next, len := |d|, cap := |d|), next + |d|, d);
  }

  /** A table whose files are the same, or fewer. */
  lemma SameContents(ns: seq<Node>, next: nat, data: seq<byte>, node: nat, n': Node)
    requires Extents(ns, next) && next <= |data| && node < |ns|
    requires (n'.kind == File ==> n'.off == 0 && n'.len == 0 && n'.cap == 0)
    ensures Extents(ns[node := n'], next)
    ensures ContentsOf(ns[node := n'], next, data) == ContentsOf(ns, next, data)[node := []]
  {
  }

  // ----- Sets of nodes, as measures -----

  ghost function LiveSet(ns: seq<Node>): set<nat> { set i: nat | i < |ns| && ns[i].kind != Free }

  ghost function DeeperSet(ns: seq<Node>, depth: seq<nat>, d: nat): set<nat> {
    set i: nat | i < |ns| && ns[i].kind != Free && i < |depth| && depth[i] > d
  }

  lemma Fewer(a: set<nat>, b: set<nat>, x: nat)
    requires a <= b && x in b && x !in a
    ensures |a| < |b|
  {
    SubsetSize(a, b - {x});
  }

  lemma {:induction false} SubsetSize(a: set<nat>, b: set<nat>)
    requires a <= b
    ensures |a| <= |b|
    decreases |a|
  {
    if x :| x in a { SubsetSize(a - {x}, b - {x}); }
  }

  lemma PatchedToEnd(data: seq<byte>, off: nat, d: seq<byte>)
    requires off + |d| == |data|
    ensures Patched(data, off, d) == data[..off] + d
  {
  }

  /** What `write` comes to. */
  datatype Outcome = Done | Refused | Panics

  lemma FileFits(ns: seq<Node>, next: nat, node: nat)
    requires Extents(ns, next) && node < |ns| && ns[node].kind == File
    ensures ns[node].off + ns[node].cap <= next
  {
  }

  class FileSystem {
    const nodes: array<Node>
    const pool: array<byte>
    var next: nat
    ghost var depth: seq<nat>

    ghost predicate Valid()
      reads this, nodes, pool
    {
      Tree(nodes[..], depth) && Extents(nodes[..], next) && next <= pool.Length < W32
    }

    ghost function Contents(): seq<seq<byte>>
      requires Valid()
      reads this, nodes, pool
    {
      ContentsOf(nodes[..], next, pool[..])
    }

    /** The table with nothing but the root. */
    constructor (slots: nat, bytes: nat)
      requires 0 < slots && bytes < W32
      ensures Valid() && fresh(nodes) && fresh(pool) && nodes.Length == slots && pool.Length == bytes
      ensures forall i :: 0 <= i < slots ==> (Live(nodes[..], i) <==> i == ROOT)
    {
      nodes := new Node[slots](i => if i == ROOT then Node(Dir, [SLASH], ROOT, 0, 0, 0) else EmptyNode());
      pool := new byte[bytes](_ => 0);
      next := 0;
      depth := seq(slots, _ => 0);
      new;
      assert forall i :: 0 <= i < slots ==>
        nodes[..][i] == if i == ROOT then Node(Dir, [SLASH], ROOT, 0, 0, 0) else EmptyNode();
    }

    method AllocNode() returns (r: Option<nat>)
      requires nodes.Length > 0
      ensures r == FreeNode(nodes[..], 1)
    {
      var i := 1;
      while i < nodes.Length
        invariant 1 <= i <= nodes.Length && FreeNode(nodes[..], 1) == FreeNode(nodes[..], i)
      {
        if nodes[i].kind == Free { return Some(i); }
        i := i + 1;
      }
      r := None;
    }

    method LookUp(dir: nat, name: seq<byte>) returns (r: Option<nat>)
      ensures r == FindChild(nodes[..], dir, name, 0)
    {
      var i := 0;
      while i < nodes.Length
        invariant 0 <= i <= nodes.Length && FindChild(nodes[..], dir, name, 0) == FindChild(nodes[..], dir, name, i)
      {
        if nodes[i].kind != Free && nodes[i].parent == dir && i != dir && nodes[i].name == name { return Some(i); }
        i := i + 1;
      }
      r := None;
    }

    /** A directory in the lowest free slot; refused only for a bad name, a missing directory, a
        duplicate or a full table. */
    method MkDir(dir: nat, name: seq<byte>) returns (r: Option<nat>)
      requires Valid() && dir < nodes.Length
      modifies nodes, this`depth
      ensures Valid() && Contents() == old(Contents())
      ensures r.None? <==>
        || name == [] || |name| > NAME_MAX || old(nodes[dir]).kind != Dir
        || (exists c: nat :: IsChild(old(nodes[..]), c, dir) && old(nodes[..])[c].name == name)
        || (forall i :: 1 <= i < nodes.Length ==> old(nodes[..])[i].kind != Free)
      ensures r.None? ==> nodes[..] == old(nodes[..])
      ensures r.Some? ==>
        && r == FreeNode(old(nodes[..]), 1)
        && nodes[..] == old(nodes[..])[r.value := Node(Dir, name, dir, 0, 0, 0)]
    {
      hide Tree, Extents, ContentsOf, FindChild, FreeNode;
      if name == [] || |name| > NAME_MAX || nodes[dir].kind != Dir { return None; }
      var existing := LookUp(dir, name);
      if existing.Some? { return None; }
      r := AllocNode();
      if r.None? { return; }
      AddNode(r.value, Node(Dir, name, dir, 0, 0, 0));
    }

    /** Like `MkDir` for a file, except that an existing file is returned. */
    method CreateFile(dir: nat, name: seq<byte>) returns (r: Option<nat>)
      requires Valid() && dir < nodes.Length
      modifies nodes, this`depth
      ensures Valid() && Contents() == old(Contents())
      ensures r.Some? ==>
        && r.value < nodes.Length && nodes[r.value].kind == File && IsChild(nodes[..], r.value, dir)
        && nodes[r.value].name == name
        && (nodes[..] == old(nodes[..]) ||
            (r == FreeNode(old(nodes[..]), 1) &&
              nodes[..] == old(nodes[..])[r.value := Node(File, name, dir, 0, 0, 0)]))
      ensures r.None? ==> nodes[..] == old(nodes[..])
      ensures r.None? <==>
        || name == [] || |name| > NAME_MAX || old(nodes[dir]).kind != Dir
        || (exists c: nat :: IsChild(old(nodes[..]), c, dir) && old(nodes[..])[c].name == name &&
             old(nodes[..])[c].kind != File)
        || ((forall c: nat :: IsChild(old(nodes[..]), c, dir) ==> old(nodes[..])[c].name != name) &&
            (forall i :: 1 <= i < nodes.Length ==> old(nodes[..])[i].kind != Free))
    {
      hide Tree, Extents, ContentsOf, FindChild, FreeNode;
      if name == [] || |name| > NAME_MAX || nodes[dir].kind != Dir { return None; }
      var existing := LookUp(dir, name);
      if existing.Some? {
        OneChild(nodes[..], depth, dir, name, existing.value);
        return if nodes[existing.value].kind == File then existing else None;
      }
      r := AllocNode();
      if r.None? { return; }
      AddNode(r.value, Node(File, name, dir, 0, 0, 0));
    }

    /** A new, empty node in a free slot keeps the tree and all contents. */
    method AddNode(idx: nat, node: Node)
      requires Valid() && 0 < idx < nodes.Length && nodes[idx].kind == Free && node.kind != Free
      requires node.off == 0 && node.len == 0 && node.cap == 0
      requires node.parent < nodes.Length && nodes[node.parent].kind == Dir
      requires FindChild(nodes[..], node.parent, node.name, 0).None?
      modifies nodes, this`depth
      ensures Valid() && Contents() == old(Contents()) && nodes[..] == old(nodes[..])[idx := node]
    {
      hide NamesUnique, Extents, FindChild;
      AddedTree(nodes[..], depth, idx, node);
      SameContents(nodes[..], next, pool[..], idx, node);
      depth := depth[idx := depth[node.parent] + 1];
      nodes[idx] := node;
      assert nodes[..] == old(nodes[..])[idx := node];
    }

    /** The byte loop shared by `write` and `append`. */
    method CopyIn(off: nat, d: seq<byte>)
      requires off + |d| <= pool.Length
      modifies pool
      ensures pool[..] == Patched(old(pool[..]), off, d)
    {
      var i := 0;
      while i < |d|
        invariant 0 <= i <= |d|
        invariant forall k :: 0 <= k < pool.Length ==>
          pool[k] == if off <= k < off + i then d[k - off] else old(pool[k])
      {
        pool[off + i] := d[i];
        i := i + 1;
      }
    }

    /** The file now holds `d` and every other file what it held; when refused, nothing has changed. The
        length is truncated to 32 bits before it is compared with the capacity, so data of 2^32 bytes or
        more can pass that test; the copy then fills the pool from the file's offset to the end, over
        whatever lies there, and the kernel stops. */
    method Write(node: nat, d: seq<byte>) returns (r: Outcome)
      requires Valid() && node < nodes.Length
      modifies nodes, pool, this`next
      ensures Valid()
      ensures r == Panics <==> old(nodes[node]).kind == File && |d| >= W32 && |d| % W32 <= old(nodes[node]).cap
      ensures r == Done <==>
        && old(nodes[node]).kind == File && |d| < W32
        && (|d| <= old(nodes[node]).cap || old(next) + |d| <= pool.Length)
      ensures r == Done ==> Contents() == old(Contents())[node := d]
      ensures r == Refused ==> Contents() == old(Contents()) && pool[..] == old(pool[..])
      ensures r == Panics ==>
        var off := old(nodes[node]).off;
        off <= pool.Length && pool[..] == old(pool[..])[..off] + d[..pool.Length - off]
      ensures r != Done ==> nodes[..] == old(nodes[..]) && next == old(next)
      ensures SameFile(old(nodes[node]), nodes[node]) && nodes[..] == old(nodes[..])[node := nodes[node]]
    {
      hide Tree, Extents, ContentsOf, Patched;
      var n := nodes[node];
      if n.kind != File { return Refused; }
      if |d| % W32 <= n.cap {
        FileFits(nodes[..], next, node);
        if n.off + |d| > pool.Length {
          CopyIn(n.off, d[..pool.Length - n.off]);
          PatchedToEnd(old(pool[..]), n.off, d[..pool.Length - n.off]);
          return Panics;
        }
        StoredInPlace(nodes[..], next, pool[..], node, d);
        CopyIn(n.off, d);
        Replace(node, n.(len := |d|));
        return Done;
      }
      var off := next;
      if off + |d| > pool.Length { return Refused; }
      var n' := n.(off := off, len := |d|, cap := |d|);
      StoredAtEnd(nodes[..], next, pool[..], node, d);
      CopyIn(off, d);
      next := off + |d|;
      Replace(node, n');
      r := Done;
    }

    /** The file's extent changes; the tree does not. */
    method Replace(node: nat, n': Node)
      requires Tree(nodes[..], depth) && node < nodes.Length && SameFile(nodes[node], n')
      modifies nodes
      ensures Tree(nodes[..], depth) && nodes[..] == old(nodes[..])[node := n']
    {
      nodes[node] := n';
      assert nodes[..] == old(nodes[..])[node := n'];
    }

    /** The file now holds its old content followed by `d`. */
    method Append(node: nat, d: seq<byte>) returns (ok: bool)
      requires Valid() && node < nodes.Length
      modifies nodes, pool, this`next
      ensures Valid()
      ensures Contents() == if ok then old(Contents())[node := old(Contents())[node] + d] else old(Contents())
      ensures ok <==> old(nodes[node]).kind == File && old(next) + |old(Contents())[node]| + |d| <= pool.Length
      ensures SameFile(old(nodes[node]), nodes[node]) && nodes[..] == old(nodes[..])[node := nodes[node]]
    {
      hide Tree, Extents, ContentsOf, Patched;
      var cur := Read(node);
      var total := |cur| + |d|;
      var off := next;
      if off + total > pool.Length { return false; }
      var n := nodes[node];
      if n.kind != File { return false; }
      var n' := n.(off := off, len := total, cap := total);
      StoredAtEnd(nodes[..], next, pool[..], node, cur + d);
      MoveUp(n.off, off, |cur|);
      CopyIn(off + |cur|, d);
      TwoPatches(old(pool[..]), off, cur, d);
      next := off + total;
      Replace(node, n');
      ok := true;
    }

    /** The loop of `append` that copies a file's bytes to the end of the pool. */
    method MoveUp(src: nat, dst: nat, n: nat)
      requires src + n <= dst && dst + n <= pool.Length
      modifies pool
      ensures pool[..] == Patched(old(pool[..]), dst, old(pool[src..src + n]))
    {
      var i := 0;
      while i < n
        invariant 0 <= i <= n
        invariant forall k :: 0 <= k < pool.Length ==>
          pool[k] == if dst <= k < dst + i then old(pool[k - dst + src]) else old(pool[k])
      {
        pool[dst + i] := pool[src + i];
        i := i + 1;
      }
    }

    method Read(node: nat) returns (r: seq<byte>)
      requires Valid() && node < nodes.Length
      ensures r == Contents()[node]
      ensures nodes[node].kind == File ==>
        |r| == nodes[node].len && nodes[node].off + |r| <= next && r == pool[nodes[node].off..nodes[node].off + |r|]
    {
      var n := nodes[node];
      if n.kind != File || n.len == 0 { return []; }
      r := pool[n.off..n.off + n.len];
    }

    /** Only the root, free slots and directories with children are refused. */
    method Unlink(node: nat) returns (ok: bool)
      requires Valid() && node < nodes.Length
      modifies nodes
      ensures Valid()
      ensures ok <==> node != ROOT && Live(old(nodes[..]), node) && forall c: nat :: !IsChild(old(nodes[..]), c, node)
      ensures nodes[..] == if ok then old(nodes[..])[node := EmptyNode()] else old(nodes[..])
      ensures Contents() == if ok then old(Contents())[node := []] else old(Contents())
    {
      hide NamesUnique, ContentsOf;
      if node == ROOT { return false; }
      var kind := nodes[node].kind;
      if kind == Free { return false; }
      if kind == Dir {
        var i := 0;
        while i < nodes.Length
          invariant 0 <= i <= nodes.Length && forall c :: 0 <= c < i ==> !IsChild(nodes[..], c, node)
        {
          if nodes[i].kind != Free && nodes[i].parent == node && i != node {
            assert IsChild(nodes[..], i, node);
            return false;
          }
          i := i + 1;
        }
      }
      FilesAreLeaves(nodes[..], depth, node);
      RemovedTree(nodes[..], depth, node);
      SameContents(nodes[..], next, pool[..], node, EmptyNode());
      nodes[node] := EmptyNode();
      assert nodes[..] == old(nodes[..])[node := EmptyNode()];
      ok := true;
    }

    // ----- Paths -----

    method ResolveFrom(start: nat, path: seq<byte>) returns (r: Option<nat>)
      requires Valid() && start < nodes.Length
      ensures r == Resolve(nodes[..], start, path)
    {
      hide NamesUnique, Extents, FindChild, SkipSlashes, ComponentEnd, ResolveAt;
      ghost var ns := nodes[..];
      var cur: nat := if path != [] && path[0] == SLASH then ROOT else start;
      var i := 0;
      while i < |path|
        invariant 0 <= i <= |path| && cur < nodes.Length && Resolve(ns, start, path) == ResolveAt(ns, cur, path, i)
      {
        var s := SkipTo(path, i);
        var e := EndOf(path, s);
        ResolveUnfold(ns, cur, path, i);
        if e == s { return Some(cur); }
        i := e;
        var name := path[s..e];
        if name == [DOT] {
        } else if name == [DOT, DOT] {
          cur := nodes[cur].parent;
        } else {
          var c := LookUp(cur, name);
          if c.None? { return None; }
          cur := c.value;
        }
      }
      ResolveEnd(ns, cur, path);
      r := Some(cur);
    }

    /** Writes the node's path, cut off where the buffer ends, and nothing behind it. */
    method PathOf(node: nat, out: array<byte>) returns (pos: nat)
      requires Valid() && node < nodes.Length && out != pool
      modifies out
      ensures Shows(out, pos, PathBytes(nodes[..], node))
      ensures forall k :: pos <= k < out.Length ==> out[k] == old(out[k])
    {
      ghost var ns := nodes[..];
      assert ParentsInside(ns);
      hide NamesUnique, Ranked, Extents, PathBytes, Printed, Chain;
      pos := 0;
      if node == ROOT {
        pos := Put(out, pos, SLASH, []);
        RootPath(ns);
        return;
      }
      var chain := CollectChain(node);
      pos := PutChain(chain, out);
      NodePath(ns, node);
    }

    method CollectChain(node: nat) returns (chain: seq<nat>)
      requires Valid() && node < nodes.Length
      ensures chain == Chain(nodes[..], node, MAX_CHAIN)
    {
      hide NamesUnique, Extents;
      ghost var ns := nodes[..];
      assert ParentsInside(ns) && Chain(ns, node, 0) == [] && Climb(ns, node, 0) == node;
      hide Ranked, Chain, Climb;
      chain := [];
      var cur := node;
      while cur != ROOT && |chain| < MAX_CHAIN
        invariant |chain| <= MAX_CHAIN && chain == Chain(ns, node, |chain|) && cur == Climb(ns, node, |chain|)
        invariant cur < nodes.Length
        decreases MAX_CHAIN - |chain|
      {
        ChainExtends(ns, node, |chain|);
        ClimbMore(ns, node, |chain|);
        chain := chain + [cur];
        cur := nodes[cur].parent;
      }
      ChainEnds(ns, node, |chain|, MAX_CHAIN);
    }

    method PutChain(chain: seq<nat>, out: array<byte>) returns (pos: nat)
      requires forall i :: 0 <= i < |chain| ==> chain[i] < nodes.Length
      modifies out
      ensures Shows(out, pos, Printed(nodes[..], chain))
      ensures forall k :: pos <= k < out.Length ==> out[k] == old(out[k])
    {
      hide Shows;
      ghost var ns := nodes[..];
      pos := 0;
      var d := |chain|;
      assert chain[d..] == [];
      ShowsNothing(out);
      while d > 0
        invariant 0 <= d <= |chain| && Shows(out, pos, Printed(ns, chain[d..]))
        invariant forall k :: pos <= k < out.Length ==> out[k] == old(out[k])
      {
        d := d - 1;
        assert chain[d..][1..] == chain[d + 1..];
        pos := PutName(out, pos, nodes[chain[d]].name, Printed(ns, chain[d + 1..]));
      }
      assert chain[0..] == chain;
    }

    // ----- Recursive removal -----

    /** The first child that `for_each_child` visits. */
    method FirstChild(dir: nat) returns (r: Option<nat>)
      requires Valid() && dir < nodes.Length
      ensures r.Some? ==> IsChild(nodes[..], r.value, dir) && r.value != ROOT && nodes[dir].kind == Dir
      ensures r.Some? ==> forall c: nat :: c < r.value ==> !IsChild(nodes[..], c, dir)
      ensures r.None? ==> forall c: nat :: !IsChild(nodes[..], c, dir)
    {
      hide NamesUnique, Ranked, Extents;
      ghost var ns := nodes[..];
      FilesAreLeaves(ns, depth, dir);
      if nodes[dir].kind != Dir { return None; }
      var i := 0;
      while i < nodes.Length
        invariant 0 <= i <= nodes.Length && forall c :: 0 <= c < i ==> !IsChild(ns, c, dir)
      {
        if nodes[i].kind != Free && nodes[i].parent == dir && i != dir {
          ChildNotRoot(ns, depth, i, dir);
          return Some(i);
        }
        i := i + 1;
      }
      r := None;
    }

    /** Removes exactly the proper descendants of `dir`. */
    method RmRecursive(dir: nat)
      requires Valid() && dir < nodes.Length
      modifies nodes
      ensures Valid() && Pruned(old(nodes[..]), nodes[..])
      ensures forall i: nat :: Live(nodes[..], i) <==> Live(old(nodes[..]), i) && !Descendant(old(nodes[..]), i, dir)
      ensures forall i :: 0 <= i < nodes.Length && Live(nodes[..], i) ==> Contents()[i] == old(Contents())[i]
      decreases |DeeperSet(nodes[..], depth, depth[dir])|, 0
    {
      hide NamesUnique, Ranked, Extents, ContentsOf, Descendant, LiveSet, DeeperSet;
      ghost var ns := nodes[..];
      while true
        invariant Valid() && Pruned(ns, nodes[..])
        invariant forall i: nat :: Live(ns, i) && !Live(nodes[..], i) ==> Descendant(ns, i, dir)
        invariant forall i :: 0 <= i < nodes.Length && Live(nodes[..], i) ==> Contents()[i] == old(Contents())[i]
        decreases |LiveSet(nodes[..])|
      {
        var child := FirstChild(dir);
        if child.None? { break; }
        DeeperShrinks(ns, nodes[..], depth, dir, child.value);
        RemoveChild(dir, child.value, ns);
      }
      forall i: nat ensures Live(nodes[..], i) <==> Live(ns, i) && !Descendant(ns, i, dir) {
        NothingLeft(ns, nodes[..], depth, dir, i);
      }
    }

    /** One round: the child goes, with everything below it. */
    method RemoveChild(dir: nat, c: nat, ghost ns: seq<Node>)
      requires Valid() && dir < nodes.Length && IsChild(nodes[..], c, dir) && c != ROOT && Pruned(ns, nodes[..])
      requires forall i: nat :: Live(ns, i) && !Live(nodes[..], i) ==> Descendant(ns, i, dir)
      modifies nodes
      ensures Valid() && Pruned(old(nodes[..]), nodes[..]) && Pruned(ns, nodes[..])
      ensures forall i: nat :: Live(ns, i) && !Live(nodes[..], i) ==> Descendant(ns, i, dir)
      ensures forall i :: 0 <= i < nodes.Length && Live(nodes[..], i) ==> Contents()[i] == old(Contents())[i]
      ensures |LiveSet(nodes[..])| < |LiveSet(old(nodes[..]))|
      decreases |DeeperSet(nodes[..], depth, depth[c])|, 1
    {
      hide NamesUnique, Ranked, Extents, ContentsOf, Descendant, LiveSet, DeeperSet;
      ghost var ns1 := nodes[..];
      if nodes[c].kind == Dir {
        RmRecursive(c);
      }
      ChildEmptied(ns1, nodes[..], depth, c);
      var ok := Unlink(c);
      RemovedBelow(ns, ns1, nodes[..], dir, c);
      LiveShrinks(ns1, nodes[..], c);
    }
  }

  lemma ShowsNothing(out: array<byte>)
    ensures Shows(out, 0, [])
  {
  }

  lemma RootPath(ns: seq<Node>)
    requires ParentsInside(ns) && |ns| > 0
    ensures PathBytes(ns, ROOT) == [SLASH]
  {
  }

  lemma NodePath(ns: seq<Node>, node: nat)
    requires ParentsInside(ns) && ROOT < node < |ns|
    ensures PathBytes(ns, node) == Printed(ns, Chain(ns, node, MAX_CHAIN))
  {
  }

  lemma ChildNotRoot(ns: seq<Node>, depth: seq<nat>, c: nat, dir: nat)
    requires Ranked(ns, depth) && IsChild(ns, c, dir)
    ensures c != ROOT
  {
  }

  /** The recursive call has less below it. */
  lemma DeeperShrinks(ns: seq<Node>, ns1: seq<Node>, depth: seq<nat>, dir: nat, c: nat)
    requires Ranked(ns, depth) && Ranked(ns1, depth) && Pruned(ns, ns1) && dir < |ns| && IsChild(ns1, c, dir)
    requires c != ROOT
    ensures |DeeperSet(ns1, depth, depth[c])| < |DeeperSet(ns, depth, depth[dir])|
  {
    Fewer(DeeperSet(ns1, depth, depth[c]), DeeperSet(ns, depth, depth[dir]), c);
  }

  lemma LiveShrinks(ns: seq<Node>, ns': seq<Node>, c: nat)
    requires Pruned(ns, ns') && Live(ns, c) && !Live(ns', c)
    ensures |LiveSet(ns')| < |LiveSet(ns)|
  {
    Fewer(LiveSet(ns'), LiveSet(ns), c);
  }

  /** A child whose descendants are gone can be unlinked. */
  lemma ChildEmptied(ns: seq<Node>, ns': seq<Node>, depth: seq<nat>, c: nat)
    requires Ranked(ns, depth) && Ranked(ns', depth) && Pruned(ns, ns') && Live(ns, c) && c != ROOT
    requires (ns' == ns && ns[c].kind != Dir) || forall i: nat :: Live(ns', i) <==> Live(ns, i) && !Descendant(ns, i, c)
    ensures Live(ns', c) && forall d: nat :: !IsChild(ns', d, c)
  {
    FilesAreLeaves(ns, depth, c);
    forall d: nat | IsChild(ns, d, c) ensures Descendant(ns, d, c) {
      assert Below(ns, d, c, 1);
    }
    if Descendant(ns, c, c) {
      var k: nat :| Below(ns, c, c, k);
      BelowDeeper(ns, depth, c, c, k);
    }
  }

  lemma RemovedBelow(ns: seq<Node>, ns1: seq<Node>, ns2: seq<Node>, dir: nat, c: nat)
    requires Pruned(ns, ns1) && |ns2| == |ns1| && IsChild(ns1, c, dir) && c != ROOT
    requires forall i: nat :: Live(ns, i) && !Live(ns1, i) ==> Descendant(ns, i, dir)
    requires forall i: nat :: Live(ns1, i) && !Live(ns2, i) ==> i == c || Descendant(ns1, i, c)
    ensures forall i: nat :: Live(ns, i) && !Live(ns2, i) ==> Descendant(ns, i, dir)
  {
    forall i: nat | Live(ns1, i) && !Live(ns2, i) ensures Descendant(ns, i, dir) {
      assert Below(ns, c, dir, 1);
      if i != c {
        var k: nat :| Below(ns1, i, c, k);
        BelowPruned(ns, ns1, i, c, k);
        BelowTrans(ns, i, c, dir, k);
      }
    }
  }

  /** Nothing below `dir` is alive once it has no children. */
  lemma NothingLeft(ns: seq<Node>, ns': seq<Node>, depth: seq<nat>, dir: nat, i: nat)
    requires Pruned(ns, ns') && Ranked(ns', depth) && forall c: nat :: !IsChild(ns', c, dir)
    ensures Live(ns', i) ==> Live(ns, i) && !Descendant(ns, i, dir)
  {
    if Live(ns', i) && Descendant(ns, i, dir) {
      var k: nat :| Below(ns, i, dir, k);
      BelowStays(ns, ns', depth, i, dir, k);
      BelowNeedsChild(ns', depth, i, dir, k);
    }
  }

  // ----- Helpers of the path loops -----

  method SkipTo(path: seq<byte>, start: nat) returns (i: nat)
    requires start <= |path|
    ensures i == SkipSlashes(path, start)
  {
    i := start;
    while i < |path| && path[i] == SLASH
      invariant start <= i <= |path| && SkipSlashes(path, start) == SkipSlashes(path, i)
    {
      i := i + 1;
    }
  }

  method EndOf(path: seq<byte>, start: nat) returns (i: nat)
    requires start <= |path|
    ensures i == ComponentEnd(path, start)
  {
    i := start;
    while i < |path| && path[i] != SLASH
      invariant start <= i <= |path| && ComponentEnd(path, start) == ComponentEnd(path, i)
    {
      i := i + 1;
    }
  }

  lemma ResolveUnfold(ns: seq<Node>, cur: nat, path: seq<byte>, i: nat)
    requires ParentsInside(ns) && cur < |ns| && i <= |path|
    ensures var s := SkipSlashes(path, i);
            var e := ComponentEnd(path, s);
            ResolveAt(ns, cur, path, i) ==
              if e == s then Some(cur)
              else if path[s..e] == [DOT] then ResolveAt(ns, cur, path, e)
              else if path[s..e] == [DOT, DOT] then ResolveAt(ns, ns[cur].parent, path, e)
              else match FindChild(ns, cur, path[s..e], 0)
                   case None => None
                   case Some(c) => ResolveAt(ns, c, path, e)
  {
    hide FindChild, SkipSlashes, ComponentEnd;
  }

  /** The buffer holds as much of `text` as fits. */
  ghost predicate Shows(out: array<byte>, pos: nat, text: seq<byte>)
    reads out
  {
    pos == (if |text| < out.Length then |text| else out.Length) && out[..pos] == text[..pos]
  }

  method Put(out: array<byte>, pos: nat, b: byte, ghost text: seq<byte>) returns (pos': nat)
    requires Shows(out, pos, text)
    modifies out
    ensures Shows(out, pos', text + [b]) && pos <= pos' && forall k :: pos' <= k < out.Length ==> out[k] == old(out[k])
  {
    pos' := pos;
    if pos < out.Length {
      out[pos] := b;
      pos' := pos + 1;
    }
  }

  method PutName(out: array<byte>, pos: nat, name: seq<byte>, ghost text: seq<byte>) returns (pos': nat)
    requires Shows(out, pos, text)
    modifies out
    ensures Shows(out, pos', text + [SLASH] + name) && pos <= pos'
    ensures forall k :: pos' <= k < out.Length ==> out[k] == old(out[k])
  {
    pos' := Put(out, pos, SLASH, text);
    var k := 0;
    assert text + [SLASH] + name[..0] == text + [SLASH];
    while k < |name|
      invariant 0 <= k <= |name| && pos <= pos' && Shows(out, pos', text + [SLASH] + name[..k])
      invariant forall j :: pos' <= j < out.Length ==> out[j] == old(out[j])
    {
      assert text + [SLASH] + name[..k] + [name[k]] == text + [SLASH] + name[..k + 1];
      pos' := Put(out, pos', name[k], text + [SLASH] + name[..k]);
      k := k + 1;
    }
    assert name[..k] == name;
  }

  lemma FilesAreLeaves(ns: seq<Node>, depth: seq<nat>, node: nat)
    requires Ranked(ns, depth) && node < |ns|
    ensures ns[node].kind != Dir ==> forall c: nat :: !IsChild(ns, c, node)
  {
  }

  /** Two versions of a file that differ in their extents only. */
  predicate SameFile(a: Node, b: Node) { b == a.(off := b.off, len := b.len, cap := b.cap) }

  lemma TwoPatches(data: seq<byte>, off: nat, a: seq<byte>, b: seq<byte>)
    requires off + |a| + |b| <= |data|
    ensures Patched(Patched(data, off, a), off + |a|, b) == Patched(data, off, a + b)
  {
  }

  lemma OneChild(ns: seq<Node>, depth: seq<nat>, dir: nat, name: seq<byte>, c: nat)
    requires Tree(ns, depth) && IsChild(ns, c, dir) && ns[c].name == name
    ensures forall d: nat :: IsChild(ns, d, dir) && ns[d].name == name ==> d == c
  {
  }
}
