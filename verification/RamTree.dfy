/** The directory tree of the RAM file system: nodes in a table, each naming its parent by index. */
module RamTree {
  import opened Words

  const NAME_MAX := 28
  const ROOT := 0
  const SLASH: byte := 47
  const DOT: byte := 46

  datatype Kind = Free | Dir | File

  datatype Node = Node(kind: Kind, name: seq<byte>, parent: nat, off: nat, len: nat, cap: nat)

  function EmptyNode(): Node { Node(Free, [], 0, 0, 0, 0) }

  predicate Live(ns: seq<Node>, i: nat) { i < |ns| && ns[i].kind != Free }

  predicate IsChild(ns: seq<Node>, i: nat, dir: nat) { Live(ns, i) && ns[i].parent == dir && i != dir }

  // ----- The tree -----

  /** Every live node's parent is a live directory, one level higher; the root is its own parent. */
  ghost predicate Ranked(ns: seq<Node>, depth: seq<nat>) {
    && |ns| > 0 && |depth| == |ns| && ns[ROOT].kind == Dir && ns[ROOT].parent == ROOT && depth[ROOT] == 0
    && (forall i :: 0 <= i < |ns| ==> ns[i].parent < |ns|)
    && (forall i :: 0 <= i < |ns| && ns[i].kind != Free && i != ROOT ==>
          ns[ns[i].parent].kind == Dir && depth[i] == depth[ns[i].parent] + 1)
  }

  ghost predicate NamesUnique(ns: seq<Node>) {
    forall i,
      j :: 0 <= i < |ns| && 0 <= j < |ns| && i != ROOT && j != ROOT && ns[i].kind != Free && ns[j].kind != Free ==>
      (ns[i].parent == ns[j].parent && ns[i].name == ns[j].name ==> i == j)
  }

  ghost predicate Tree(ns: seq<Node>, depth: seq<nat>) { Ranked(ns, depth) && NamesUnique(ns) }

  /** The node reached by going up at most `n` times. */
  function Climb(ns: seq<Node>, i: nat, n: nat): nat
    decreases n
  {
    if n == 0 || i >= |ns| then i else Climb(ns, ns[i].parent, n - 1)
  }

  /** Parent chains reach the root. */
  lemma {:induction false} ChainReachesRoot(ns: seq<Node>, depth: seq<nat>, i: nat)
    requires Ranked(ns, depth) && Live(ns, i)
    ensures Climb(ns, i, depth[i]) == ROOT
    decreases depth[i]
  {
    if i != ROOT {
      ChainReachesRoot(ns, depth, ns[i].parent);
    }
  }

  // ----- Looking up children -----

  function FindChild(ns: seq<Node>, dir: nat, name: seq<byte>, i: nat): (r: Option<nat>)
    requires i <= |ns|
    ensures r.Some? ==> i <= r.value && IsChild(ns, r.value, dir) && ns[r.value].name == name
    ensures r.None? ==> forall c: nat :: i <= c && IsChild(ns, c, dir) ==> ns[c].name != name
    decreases |ns| - i
  {
    if i == |ns| then None
    else if IsChild(ns, i, dir) && ns[i].name == name then Some(i)
    else FindChild(ns, dir, name, i + 1)
  }

  /** In a tree a name leads to one child. */
  lemma ChildFound(ns: seq<Node>, depth: seq<nat>, c: nat)
    requires Tree(ns, depth) && Live(ns, c) && c != ROOT
    ensures FindChild(ns, ns[c].parent, ns[c].name, 0) == Some(c)
  {
    hide FindChild;
    assert IsChild(ns, c, ns[c].parent);
    var r := FindChild(ns, ns[c].parent, ns[c].name, 0);
    assert r.Some? && ns[r.value].parent == ns[c].parent;
  }

  /** The lowest free slot from `i` on. */
  function FreeNode(ns: seq<Node>, i: nat): (r: Option<nat>)
    requires i <= |ns|
    ensures r.Some? ==> i <= r.value < |ns| && ns[r.value].kind == Free
    ensures r.Some? ==> forall j :: i <= j < r.value ==> ns[j].kind != Free
    ensures r.None? ==> forall j :: i <= j < |ns| ==> ns[j].kind != Free
    decreases |ns| - i
  {
    if i == |ns| then None else if ns[i].kind == Free then Some(i) else FreeNode(ns, i + 1)
  }

  // ----- What the operations do to the tree -----

  /** A new node in a free slot, under a directory that has no child of that name. */
  lemma AddedTree(ns: seq<Node>, depth: seq<nat>, idx: nat, node: Node)
    requires Tree(ns, depth) && 0 < idx < |ns| && ns[idx].kind == Free && node.kind != Free
    requires node.parent < |ns| && ns[node.parent].kind == Dir && FindChild(ns, node.parent, node.name, 0).None?
    ensures Tree(ns[idx := node], depth[idx := depth[node.parent] + 1])
  {
    hide FindChild, NamesUnique, Ranked;
    AddedRanked(ns, depth, idx, node);
    AddedUnique(ns, depth, idx, node);
  }

  lemma AddedRanked(ns: seq<Node>, depth: seq<nat>, idx: nat, node: Node)
    requires Ranked(ns, depth) && 0 < idx < |ns| && ns[idx].kind == Free && node.kind != Free
    requires node.parent < |ns| && ns[node.parent].kind == Dir
    ensures Ranked(ns[idx := node], depth[idx := depth[node.parent] + 1])
  {
  }

  lemma AddedUnique(ns: seq<Node>, depth: seq<nat>, idx: nat, node: Node)
    requires Ranked(ns, depth) && NamesUnique(ns) && 0 < idx < |ns| && ns[idx].kind == Free
    requires node.parent < |ns| && ns[node.parent].kind == Dir && FindChild(ns, node.parent, node.name, 0).None?
    ensures NamesUnique(ns[idx := node])
  {
    hide FindChild;
    forall c: nat | c < |ns| && c != ROOT && ns[c].kind != Free && ns[c].parent == node.parent
      ensures ns[c].name != node.name
    {
      assert IsChild(ns, c, node.parent);
    }
  }

  /** A node without children is removed. */
  lemma RemovedTree(ns: seq<Node>, depth: seq<nat>, idx: nat)
    requires Tree(ns, depth) && 0 < idx < |ns| && forall c: nat :: !IsChild(ns, c, idx)
    ensures Tree(ns[idx := EmptyNode()], depth)
  {
    forall i | 0 <= i < |ns| && ns[i].kind != Free && i != ROOT && i != idx ensures ns[i].parent != idx {
      assert !IsChild(ns, i, idx);
    }
  }

  // ----- Descendants -----

  /** `i` lies below `a`, at most `k` levels down. */
  predicate Below(ns: seq<Node>, i: nat, a: nat, k: nat)
    decreases k
  {
    k > 0 && Live(ns, i) && i != ROOT && (ns[i].parent == a || Below(ns, ns[i].parent, a, k - 1))
  }

  ghost predicate Descendant(ns: seq<Node>, i: nat, a: nat) { exists k: nat :: Below(ns, i, a, k) }

  /** In a tree, everything below `a` hangs on one of its children. */
  lemma {:induction false} BelowNeedsChild(ns: seq<Node>, depth: seq<nat>, i: nat, a: nat, k: nat)
    requires Ranked(ns, depth) && Below(ns, i, a, k)
    ensures exists c: nat :: IsChild(ns, c, a)
    decreases k
  {
    if ns[i].parent == a {
      assert IsChild(ns, i, a);
    } else {
      BelowNeedsChild(ns, depth, ns[i].parent, a, k - 1);
    }
  }

  /** Nodes that are left after a removal keep their place. */
  ghost predicate Pruned(ns: seq<Node>, ns': seq<Node>) {
    |ns'| == |ns| && forall i :: 0 <= i < |ns| && ns'[i].kind != Free ==> ns'[i] == ns[i]
  }

  lemma {:induction false} BelowPruned(ns: seq<Node>, ns': seq<Node>, i: nat, a: nat, k: nat)
    requires Pruned(ns, ns') && Below(ns', i, a, k)
    ensures Below(ns, i, a, k)
    decreases k
  {
    if ns'[i].parent != a {
      BelowPruned(ns, ns', ns'[i].parent, a, k - 1);
    }
  }

  /** A live node that was below `a` still is: its parents are live. */
  lemma {:induction false} BelowStays(ns: seq<Node>, ns': seq<Node>, depth: seq<nat>, i: nat, a: nat, k: nat)
    requires Pruned(ns, ns') && Ranked(ns', depth) && Live(ns', i) && Below(ns, i, a, k)
    ensures Below(ns', i, a, k)
    decreases k
  {
    if ns[i].parent != a {
      BelowStays(ns, ns', depth, ns[i].parent, a, k - 1);
    }
  }

  lemma {:induction false} BelowTrans(ns: seq<Node>, i: nat, c: nat, a: nat, k: nat)
    requires Below(ns, i, c, k) && IsChild(ns, c, a) && c != ROOT
    ensures Below(ns, i, a, k + 1)
    decreases k
  {
    if ns[i].parent != c {
      BelowTrans(ns, ns[i].parent, c, a, k - 1);
    } else {
      assert Below(ns, c, a, k);
    }
  }

  lemma {:induction false} BelowDeeper(ns: seq<Node>, depth: seq<nat>, i: nat, a: nat, k: nat)
    requires Ranked(ns, depth) && Below(ns, i, a, k) && a < |ns|
    ensures depth[i] > depth[a]
    decreases k
  {
    if ns[i].parent != a { BelowDeeper(ns, depth, ns[i].parent, a, k - 1); }
  }

  // ----- Paths -----

  function SkipSlashes(path: seq<byte>, i: nat): (r: nat)
    requires i <= |path|
    ensures i <= r <= |path|
    decreases |path| - i
  {
    if i < |path| && path[i] == SLASH then SkipSlashes(path, i + 1) else i
  }

  function ComponentEnd(path: seq<byte>, i: nat): (r: nat)
    requires i <= |path|
    ensures i <= r <= |path|
    decreases |path| - i
  {
    if i < |path| && path[i] != SLASH then ComponentEnd(path, i + 1) else i
  }

  ghost predicate ParentsInside(ns: seq<Node>) { forall i :: 0 <= i < |ns| ==> ns[i].parent < |ns| }

  /** The rest of the path from position `i`, starting at node `cur`. */
  function ResolveAt(ns: seq<Node>, cur: nat, path: seq<byte>, i: nat): (r: Option<nat>)
    requires ParentsInside(ns) && cur < |ns| && i <= |path|
    ensures r.Some? ==> r.value < |ns|
    decreases |path| - i
  {
    var s := SkipSlashes(path, i);
    var e := ComponentEnd(path, s);
    if e == s then Some(cur)
    else
      var name := path[s..e];
      if name == [DOT] then ResolveAt(ns, cur, path, e)
      else if name == [DOT, DOT] then ResolveAt(ns, ns[cur].parent, path, e)
      else
        match FindChild(ns, cur, name, 0)
        case None => None
        case Some(c) => ResolveAt(ns, c, path, e)
  }

  function Resolve(ns: seq<Node>, start: nat, path: seq<byte>): Option<nat>
    requires ParentsInside(ns) && start < |ns| && |ns| > 0
  {
    ResolveAt(ns, if path != [] && path[0] == SLASH then ROOT else start, path, 0)
  }

  /** The nodes from `node` up to, but without, the root: at most `n` of them. */
  function Chain(ns: seq<Node>, node: nat, n: nat): (r: seq<nat>)
    requires ParentsInside(ns) && node < |ns|
    ensures |r| <= n && forall i :: 0 <= i < |r| ==> r[i] < |ns|
    decreases n
  {
    if n == 0 || node == ROOT then [] else [node] + Chain(ns, ns[node].parent, n - 1)
  }

  /** "/" and the name of each node, the topmost first. */
  function Printed(ns: seq<Node>, chain: seq<nat>): seq<byte>
    requires forall i :: 0 <= i < |chain| ==> chain[i] < |ns|
  {
    if chain == [] then [] else Printed(ns, chain[1..]) + [SLASH] + ns[chain[0]].name
  }

  const MAX_CHAIN := 32

  function PathBytes(ns: seq<Node>, node: nat): seq<byte>
    requires ParentsInside(ns) && node < |ns|
  {
    if node == ROOT then [SLASH] else Printed(ns, Chain(ns, node, MAX_CHAIN))
  }

  /** A name that a path can carry. */
  predicate CleanName(name: seq<byte>) { name != [] && SLASH !in name && name != [DOT] && name != [DOT, DOT] }

  /** All names from the node up to the root are clean. */
  predicate CleanPath(ns: seq<Node>, node: nat, n: nat)
    requires ParentsInside(ns) && node < |ns|
    decreases n
  {
    node == ROOT || (n > 0 && CleanName(ns[node].name) && CleanPath(ns, ns[node].parent, n - 1))
  }

  lemma {:induction false} ComponentIs(path: seq<byte>, s: nat, e: nat)
    requires s <= e <= |path| && (e == |path| || path[e] == SLASH) && forall k :: s <= k < e ==> path[k] != SLASH
    ensures ComponentEnd(path, s) == e
    decreases e - s
  {
    if s < e { ComponentIs(path, s + 1, e); }
  }

  /** The scanner finds the component "/name" at the end of `before`. */
  lemma ComponentFound(before: seq<byte>, name: seq<byte>, after: seq<byte>)
    requires CleanName(name) && (after == [] || after[0] == SLASH)
    ensures var path := before + [SLASH] + name + after;
            var s := |before| + 1;
            SkipSlashes(path, |before|) == s && ComponentEnd(path, s) == s + |name| && path[s..s + |name|] == name
  {
    var path := before + [SLASH] + name + after;
    var s := |before| + 1;
    assert path[|before|] == SLASH && path[s] == name[0];
    assert SkipSlashes(path, s) == s && SkipSlashes(path, |before|) == s;
    assert path[s..s + |name|] == name;
    forall k | s <= k < s + |name| ensures path[k] != SLASH {
      assert path[k] == name[k - s];
    }
    ComponentIs(path, s, s + |name|);
  }

  /** A clean component goes one level down. */
  lemma StepDown(ns: seq<Node>, cur: nat, name: seq<byte>, before: seq<byte>, after: seq<byte>)
    requires ParentsInside(ns) && cur < |ns| && CleanName(name) && (after == [] || after[0] == SLASH)
    ensures var path := before + [SLASH] + name + after;
            ResolveAt(ns, cur, path, |before|) ==
              match FindChild(ns, cur, name, 0)
              case None => None
              case Some(c) => ResolveAt(ns, c, path, |before| + 1 + |name|)
  {
    hide FindChild, SkipSlashes, ComponentEnd, CleanName, ResolveAt;
    ComponentFound(before, name, after);
    ResolveStep(ns, cur, before + [SLASH] + name + after, |before|, name);
  }

  lemma ResolveStep(ns: seq<Node>, cur: nat, path: seq<byte>, i: nat, name: seq<byte>)
    requires ParentsInside(ns) && cur < |ns| && i <= |path| && CleanName(name)
    requires var s := SkipSlashes(path, i); path[s..ComponentEnd(path, s)] == name
    ensures ResolveAt(ns, cur, path, i) ==
              match FindChild(ns, cur, name, 0)
              case None => None
              case Some(c) => ResolveAt(ns, c, path, ComponentEnd(path, SkipSlashes(path, i)))
  {
    hide FindChild, SkipSlashes, ComponentEnd;
  }

  lemma {:induction false} PrintedResolves(ns: seq<Node>, depth: seq<nat>, node: nat, n: nat, after: seq<byte>)
    requires Tree(ns, depth) && Live(ns, node) && CleanPath(ns, node, n) && (after == [] || after[0] == SLASH)
    ensures var p := Printed(ns, Chain(ns, node, n));
            ResolveAt(ns, ROOT, p + after, 0) == ResolveAt(ns, node, p + after, |p|)
    decreases n
  {
    hide ResolveAt, NamesUnique, CleanName, FindChild;
    if node != ROOT {
      var up := ns[node].parent;
      var chain := Chain(ns, node, n);
      var p := Printed(ns, chain[1..]);
      assert chain[1..] == Chain(ns, up, n - 1);
      var name := ns[node].name;
      PrintedResolves(ns, depth, up, n - 1, [SLASH] + name + after);
      Regroup(p, name, after);
      StepDown(ns, up, name, p, after);
      ChildFound(ns, depth, node);
    }
  }

  lemma Regroup(p: seq<byte>, name: seq<byte>, after: seq<byte>)
    ensures p + ([SLASH] + name + after) == p + [SLASH] + name + after
  {
  }

  // ----- Which nodes a path can reach -----

  /** From a node with a clean path, paths lead only to nodes with clean paths. */
  lemma {:induction false} ReachesClean(ns: seq<Node>, depth: seq<nat>, cur: nat, path: seq<byte>, i: nat)
    requires Tree(ns, depth) && Live(ns, cur) && CleanPath(ns, cur, depth[cur]) && i <= |path|
    ensures var r := ResolveAt(ns, cur, path, i); r.Some? ==>
      Live(ns, r.value) && CleanPath(ns, r.value, depth[r.value])
    decreases |path| - i
  {
    hide FindChild, NamesUnique, CleanName;
    var s := SkipSlashes(path, i);
    var e := ComponentEnd(path, s);
    if e != s {
      var name := path[s..e];
      if name == [DOT] {
        ReachesClean(ns, depth, cur, path, e);
      } else if name == [DOT, DOT] {
        ReachesClean(ns, depth, ns[cur].parent, path, e);
      } else {
        ComponentClean(path, s);
        match FindChild(ns, cur, name, 0)
        case None =>
        case Some(c) => ReachesClean(ns, depth, c, path, e);
      }
    }
  }

  lemma {:induction false} NoSlashes(path: seq<byte>, s: nat)
    requires s <= |path|
    ensures forall k :: s <= k < ComponentEnd(path, s) ==> path[k] != SLASH
    decreases |path| - s
  {
    if s < |path| && path[s] != SLASH { NoSlashes(path, s + 1); }
  }

  lemma ComponentClean(path: seq<byte>, s: nat)
    requires s <= |path| && ComponentEnd(path, s) != s
    requires var name := path[s..ComponentEnd(path, s)]; name != [DOT] && name != [DOT, DOT]
    ensures CleanName(path[s..ComponentEnd(path, s)])
  {
    NoSlashes(path, s);
  }

  ghost predicate CleanChain(ns: seq<Node>, chain: seq<nat>) {
    forall i :: 0 <= i < |chain| ==> chain[i] < |ns| && CleanName(ns[chain[i]].name)
  }

  /** As many clean components lead exactly as many levels down. */
  lemma {:induction false} PrintedDepth(ns: seq<Node>, depth: seq<nat>, chain: seq<nat>, after: seq<byte>)
    returns (r: Option<nat>)
    requires Tree(ns, depth) && CleanChain(ns, chain) && (after == [] || after[0] == SLASH)
    ensures var path := Printed(ns, chain) + after;
            match r
            case None => ResolveAt(ns, ROOT, path, 0).None?
            case Some(m) =>
              Live(ns, m) && depth[m] == |chain| &&
              ResolveAt(ns, ROOT, path, 0) == ResolveAt(ns, m, path, |Printed(ns, chain)|)
    decreases |chain|
  {
    hide ResolveAt, NamesUnique, CleanName, FindChild;
    if chain == [] {
      r := Some(ROOT);
    } else {
      var name := ns[chain[0]].name;
      var p := Printed(ns, chain[1..]);
      r := PrintedDepth(ns, depth, chain[1..], [SLASH] + name + after);
      Regroup(p, name, after);
      if r.Some? {
        StepDown(ns, r.value, name, p, after);
        r := FindChild(ns, r.value, name, 0);
      }
    }
  }

  lemma {:induction false} CleanTop(ns: seq<Node>, depth: seq<nat>, node: nat, n: nat)
    requires Tree(ns, depth) && Live(ns, node) && CleanPath(ns, node, depth[node])
    ensures CleanChain(ns, Chain(ns, node, n)) && |Chain(ns, node, n)| == if depth[node] < n then depth[node] else n
    ensures depth[node] <= n ==> CleanPath(ns, node, n)
    decreases n
  {
    hide NamesUnique, CleanName, CleanChain;
    if node != ROOT && n > 0 {
      var up := ns[node].parent;
      CleanTop(ns, depth, up, n - 1);
      CleanMore(ns, node, Chain(ns, up, n - 1));
    } else {
      CleanNone(ns);
    }
  }

  lemma CleanNone(ns: seq<Node>)
    ensures CleanChain(ns, [])
  {
  }

  lemma CleanMore(ns: seq<Node>, node: nat, chain: seq<nat>)
    requires CleanChain(ns, chain) && node < |ns| && CleanName(ns[node].name)
    ensures CleanChain(ns, [node] + chain)
  {
    hide CleanName;
  }

  /** The end of a path names the node reached. */
  lemma ResolveEnd(ns: seq<Node>, cur: nat, path: seq<byte>)
    requires ParentsInside(ns) && cur < |ns|
    ensures ResolveAt(ns, cur, path, |path|) == Some(cur)
  {
    assert ComponentEnd(path, SkipSlashes(path, |path|)) == |path|;
  }

  /** Round trip: the path of a node leads back to it, from any directory, exactly when the node is at
      most 32 levels deep and every name on its way is one a path can carry. */
  lemma PathResolves(ns: seq<Node>, depth: seq<nat>, node: nat, start: nat)
    requires Tree(ns, depth) && Live(ns, node) && start < |ns|
    ensures Resolve(ns, start, PathBytes(ns, node)) == Some(node) <==> CleanPath(ns, node, MAX_CHAIN)
  {
    hide ResolveAt, NamesUnique, CleanName;
    var path := PathBytes(ns, node);
    if node == ROOT {
      RootResolves(ns);
    } else {
      var chain := Chain(ns, node, MAX_CHAIN);
      PrintedStarts(ns, chain);
      assert path + [] == path;
      if CleanPath(ns, node, MAX_CHAIN) {
        PrintedResolves(ns, depth, node, MAX_CHAIN, []);
        ResolveEnd(ns, node, path);
      } else if Resolve(ns, start, path) == Some(node) {
        ReachesClean(ns, depth, ROOT, path, 0);
        CleanTop(ns, depth, node, MAX_CHAIN);
        var r := PrintedDepth(ns, depth, chain, []);
        ResolveEnd(ns, r.value, path);
      }
    }
  }

  /** A node that exists and cannot be reached: the directory "." below the root. */
  lemma DotUnreachable(start: nat)
    requires start < 2
    ensures var ns := [Node(Dir, [SLASH], ROOT, 0, 0, 0), Node(Dir, [DOT], ROOT, 0, 0, 0)];
            Tree(ns, [0, 1]) && Live(ns, 1) && Resolve(ns, start, PathBytes(ns, 1)) != Some(1)
  {
    hide Resolve, PathBytes;
    var ns := [Node(Dir, [SLASH], ROOT, 0, 0, 0), Node(Dir, [DOT], ROOT, 0, 0, 0)];
    assert Tree(ns, [0, 1]);
    PathResolves(ns, [0, 1], 1, start);
  }

  lemma RootResolves(ns: seq<Node>)
    requires ParentsInside(ns) && |ns| > 0
    ensures ResolveAt(ns, ROOT, [SLASH], 0) == Some(ROOT)
  {
    assert SkipSlashes([SLASH], 1) == 1 && SkipSlashes([SLASH], 0) == 1;
  }

  /** The chain goes up one node at a time. */
  lemma {:induction false} ChainExtends(ns: seq<Node>, node: nat, n: nat)
    requires ParentsInside(ns) && node < |ns|
    ensures var c := Chain(ns, node, n);
            var top := Climb(ns, node, n);
            top < |ns| && (|c| == n && top != ROOT ==> Chain(ns, node, n + 1) == c + [top])
    decreases n
  {
    ClimbMore(ns, node, n);
    if node != ROOT && n > 0 { ChainExtends(ns, ns[node].parent, n - 1); }
  }

  lemma {:induction false} ClimbMore(ns: seq<Node>, node: nat, n: nat)
    requires ParentsInside(ns) && node < |ns|
    ensures Climb(ns, node, n) < |ns| && Climb(ns, node, n + 1) == ns[Climb(ns, node, n)].parent
    decreases n
  {
    if n > 0 { ClimbMore(ns, ns[node].parent, n - 1); }
  }

  /** A chain that has reached the root does not grow. */
  lemma {:induction false} ChainEnds(ns: seq<Node>, node: nat, n: nat, m: nat)
    requires ParentsInside(ns) && node < |ns| && n <= m && (Climb(ns, node, n) == ROOT || n == m)
    ensures Chain(ns, node, m) == Chain(ns, node, n)
    decreases n
  {
    if node != ROOT && n > 0 { ChainEnds(ns, ns[node].parent, n - 1, m - 1); }
  }

  lemma {:induction false} PrintedStarts(ns: seq<Node>, chain: seq<nat>)
    requires chain != [] && forall i :: 0 <= i < |chain| ==> chain[i] < |ns|
    ensures Printed(ns, chain) != [] && Printed(ns, chain)[0] == SLASH
    decreases |chain|
  {
    if |chain| > 1 { PrintedStarts(ns, chain[1..]); }
  }
}
