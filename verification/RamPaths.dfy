/** The laws of path resolution: relative and absolute paths, one component, and one path after another. */
module RamPaths {
  import opened Words
  import opened RamTree

  // ----- Positions -----

  lemma {:induction false} SlashesShift(pre: seq<byte>, q: seq<byte>, i: nat)
    requires i <= |q|
    ensures SkipSlashes(pre + q, |pre| + i) == |pre| + SkipSlashes(q, i)
    decreases |q| - i
  {
    if i < |q| && q[i] == SLASH { SlashesShift(pre, q, i + 1); }
  }

  lemma {:induction false} ComponentShift(pre: seq<byte>, q: seq<byte>, i: nat)
    requires i <= |q|
    ensures ComponentEnd(pre + q, |pre| + i) == |pre| + ComponentEnd(q, i)
    decreases |q| - i
  {
    if i < |q| && q[i] != SLASH { ComponentShift(pre, q, i + 1); }
  }

  /** What lies before the position does not matter. */
  lemma {:induction false} ResolveShift(ns: seq<Node>, cur: nat, pre: seq<byte>, q: seq<byte>, i: nat)
    requires ParentsInside(ns) && cur < |ns| && i <= |q|
    ensures ResolveAt(ns, cur, pre + q, |pre| + i) == ResolveAt(ns, cur, q, i)
    decreases |q| - i
  {
    hide FindChild, SkipSlashes, ComponentEnd;
    SlashesShift(pre, q, i);
    var s := SkipSlashes(q, i);
    ComponentShift(pre, q, s);
    var e := ComponentEnd(q, s);
    if e != s {
      var name := q[s..e];
      assert (pre + q)[|pre| + s..|pre| + e] == name;
      if name == [DOT] {
        ResolveShift(ns, cur, pre, q, e);
      } else if name == [DOT, DOT] {
        ResolveShift(ns, ns[cur].parent, pre, q, e);
      } else if FindChild(ns, cur, name, 0).Some? {
        ResolveShift(ns, FindChild(ns, cur, name, 0).value, pre, q, e);
      }
    }
  }

  lemma {:induction false} SlashesIn(p: seq<byte>, rest: seq<byte>, i: nat)
    requires i <= |p|
    ensures SkipSlashes(p, i) < |p| ==> SkipSlashes(p + rest, i) == SkipSlashes(p, i)
    ensures SkipSlashes(p, i) == |p| ==> SkipSlashes(p + rest, i) == SkipSlashes(p + rest, |p|)
    decreases |p| - i
  {
    if i < |p| && p[i] == SLASH { SlashesIn(p, rest, i + 1); }
  }

  lemma {:induction false} ComponentIn(p: seq<byte>, rest: seq<byte>, i: nat)
    requires i <= |p| && (rest == [] || rest[0] == SLASH)
    ensures ComponentEnd(p + rest, i) == ComponentEnd(p, i)
    decreases |p| - i
  {
    if i < |p| && p[i] != SLASH { ComponentIn(p, rest, i + 1); }
  }

  lemma {:induction false} NoMoreSlashes(p: seq<byte>, i: nat)
    requires i <= |p|
    ensures var s := SkipSlashes(p, i); s == |p| || p[s] != SLASH
    decreases |p| - i
  {
    if i < |p| && p[i] == SLASH { NoMoreSlashes(p, i + 1); }
  }

  /** From any position on: what `p` leads to, and from there what `rest` leads to. */
  lemma {:induction false} ResolveSplit(ns: seq<Node>, cur: nat, p: seq<byte>, rest: seq<byte>, i: nat)
    requires ParentsInside(ns) && cur < |ns| && i <= |p| && rest != [] && rest[0] == SLASH
    ensures ResolveAt(ns, cur, p + rest, i) ==
            match ResolveAt(ns, cur, p, i)
            case None => None
            case Some(m) => ResolveAt(ns, m, rest, 0)
    decreases |p| - i
  {
    hide FindChild, SkipSlashes, ComponentEnd;
    SlashesIn(p, rest, i);
    var s := SkipSlashes(p, i);
    NoMoreSlashes(p, i);
    ComponentIn(p, rest, s);
    var e := ComponentEnd(p, s);
    if s == |p| {
      assert e == s;
      FromHere(ns, cur, p + rest, i, |p|);
      ResolveShift(ns, cur, p, rest, 0);
    } else {
      SomeComponent(p, s);
      var name := p[s..e];
      assert (p + rest)[s..e] == name;
      if name == [DOT] {
        ResolveSplit(ns, cur, p, rest, e);
      } else if name == [DOT, DOT] {
        ResolveSplit(ns, ns[cur].parent, p, rest, e);
      } else if FindChild(ns, cur, name, 0).Some? {
        ResolveSplit(ns, FindChild(ns, cur, name, 0).value, p, rest, e);
      }
    }
  }

  lemma SomeComponent(p: seq<byte>, s: nat)
    requires s < |p| && p[s] != SLASH
    ensures ComponentEnd(p, s) > s
  {
  }

  /** Positions with the same next component are alike. */
  lemma FromHere(ns: seq<Node>, cur: nat, path: seq<byte>, i: nat, j: nat)
    requires ParentsInside(ns) && cur < |ns| && i <= |path| && j <= |path|
    requires SkipSlashes(path, i) == SkipSlashes(path, j)
    ensures ResolveAt(ns, cur, path, i) == ResolveAt(ns, cur, path, j)
  {
    hide FindChild, SkipSlashes, ComponentEnd;
  }

  /** A slash more at the front changes nothing. */
  lemma LeadingSlash(ns: seq<Node>, cur: nat, q: seq<byte>)
    requires ParentsInside(ns) && cur < |ns|
    ensures ResolveAt(ns, cur, [SLASH] + q, 0) == ResolveAt(ns, cur, q, 0)
  {
    hide FindChild, ComponentEnd, ResolveAt;
    assert SkipSlashes([SLASH] + q, 0) == SkipSlashes([SLASH] + q, 1);
    FromHere(ns, cur, [SLASH] + q, 0, 1);
    ResolveShift(ns, cur, [SLASH], q, 0);
  }

  // ----- The laws -----

  predicate Relative(path: seq<byte>) { path == [] || path[0] != SLASH }

  /** The empty path stays where it is. */
  lemma EmptyPath(ns: seq<Node>, start: nat)
    requires ParentsInside(ns) && start < |ns|
    ensures Resolve(ns, start, []) == Some(start)
  {
  }

  /** An absolute path starts at the root, wherever one is. */
  lemma AbsolutePath(ns: seq<Node>, start: nat, q: seq<byte>)
    requires ParentsInside(ns) && start < |ns| && Relative(q)
    ensures Resolve(ns, start, [SLASH] + q) == Resolve(ns, ROOT, q)
  {
    hide ResolveAt;
    LeadingSlash(ns, ROOT, q);
  }

  /** One path after the other: the second is taken from where the first leads. */
  lemma PathAfterPath(ns: seq<Node>, start: nat, p: seq<byte>, q: seq<byte>)
    requires ParentsInside(ns) && start < |ns| && p != [] && Relative(q)
    ensures Resolve(ns, start, p + [SLASH] + q) ==
            match Resolve(ns, start, p)
            case None => None
            case Some(m) => Resolve(ns, m, q)
  {
    hide ResolveAt;
    var cur := if p[0] == SLASH then ROOT else start;
    assert p + [SLASH] + q == p + ([SLASH] + q);
    ResolveSplit(ns, cur, p, [SLASH] + q, 0);
    if ResolveAt(ns, cur, p, 0).Some? { LeadingSlash(ns, ResolveAt(ns, cur, p, 0).value, q); }
  }

  /** A path of one component: "." stays, ".." goes up, and a name goes down to the child of that name. */
  lemma OneComponent(ns: seq<Node>, start: nat, name: seq<byte>)
    requires ParentsInside(ns) && start < |ns| && name != [] && SLASH !in name
    ensures name == [DOT] ==> Resolve(ns, start, name) == Some(start)
    ensures name == [DOT, DOT] ==> Resolve(ns, start, name) == Some(ns[start].parent)
    ensures CleanName(name) ==>
              match Resolve(ns, start, name)
              case None => forall c: nat :: IsChild(ns, c, start) ==> ns[c].name != name
              case Some(c) => IsChild(ns, c, start) && ns[c].name == name
  {
    ComponentIs(name, 0, |name|);
    assert SkipSlashes(name, 0) == 0 && name[0..|name|] == name;
    hide FindChild, SkipSlashes, ComponentEnd, ResolveAt;
    ResolveFirst(ns, start, name);
    forall m: nat | m < |ns| ensures ResolveAt(ns, m, name, |name|) == Some(m) {
      ResolveEnd(ns, m, name);
    }
  }

  lemma ResolveFirst(ns: seq<Node>, start: nat, name: seq<byte>)
    requires ParentsInside(ns) && start < |ns| && name != [] && SkipSlashes(name, 0) == 0
    requires ComponentEnd(name, 0) == |name| && name[0..|name|] == name
    ensures ResolveAt(ns, start, name, 0) ==
            if name == [DOT] then ResolveAt(ns, start, name, |name|)
            else if name == [DOT, DOT] then ResolveAt(ns, ns[start].parent, name, |name|)
            else
              match FindChild(ns, start, name, 0)
              case None => None
              case Some(c) => ResolveAt(ns, c, name, |name|)
  {
    hide FindChild, SkipSlashes, ComponentEnd;
  }

  // ----- Relative paths of descendants -----

  /** The names from below `d` down to `n`, separated by slashes. */
  function PathBelow(ns: seq<Node>, d: nat, n: nat, k: nat): seq<byte>
    requires ParentsInside(ns) && n < |ns|
    decreases k
  {
    if k == 0 || ns[n].parent == d then ns[n].name
    else PathBelow(ns, d, ns[n].parent, k - 1) + [SLASH] + ns[n].name
  }

  /** All names from below `d` down to `n` are clean. */
  predicate CleanBelow(ns: seq<Node>, d: nat, n: nat, k: nat)
    requires ParentsInside(ns) && n < |ns|
    decreases k
  {
    CleanName(ns[n].name) && (k == 0 || ns[n].parent == d || CleanBelow(ns, d, ns[n].parent, k - 1))
  }

  lemma {:induction false} PathBelowStarts(ns: seq<Node>, d: nat, n: nat, k: nat)
    requires ParentsInside(ns) && n < |ns| && CleanBelow(ns, d, n, k)
    ensures PathBelow(ns, d, n, k) != [] && PathBelow(ns, d, n, k)[0] != SLASH
    decreases k
  {
    if k > 0 && ns[n].parent != d { PathBelowStarts(ns, d, ns[n].parent, k - 1); }
  }

  /** From a directory, the relative path of anything below it leads there. */
  lemma {:induction false} RelativeResolves(ns: seq<Node>, depth: seq<nat>, d: nat, n: nat, k: nat)
    requires Tree(ns, depth) && d < |ns| && Below(ns, n, d, k) && CleanBelow(ns, d, n, k)
    ensures Resolve(ns, d, PathBelow(ns, d, n, k)) == Some(n)
    decreases k
  {
    var up, name := ns[n].parent, ns[n].name;
    CleanIs(name);
    if up == d {
      OneComponent(ns, d, name);
      OnlyChild(ns, depth, n, Resolve(ns, d, name));
    } else {
      RelativeResolves(ns, depth, d, up, k - 1);
      PathBelowStarts(ns, d, up, k - 1);
      PathAfterPath(ns, d, PathBelow(ns, d, up, k - 1), name);
      OneComponent(ns, up, name);
      OnlyChild(ns, depth, n, Resolve(ns, up, name));
    }
  }

  lemma CleanIs(name: seq<byte>)
    requires CleanName(name)
    ensures name != [] && SLASH !in name && Relative(name) && name != [DOT] && name != [DOT, DOT]
  {
  }

  lemma OnlyChild(ns: seq<Node>, depth: seq<nat>, n: nat, r: Option<nat>)
    requires Tree(ns, depth) && Live(ns, n) && n != ROOT
    requires match r
             case None => forall c: nat :: IsChild(ns, c, ns[n].parent) ==> ns[c].name != ns[n].name
             case Some(c) => IsChild(ns, c, ns[n].parent) && ns[c].name == ns[n].name
    ensures r == Some(n)
  {
    assert IsChild(ns, n, ns[n].parent);
  }

  /** The path of a node, and then "..": its parent. */
  lemma ParentResolves(ns: seq<Node>, depth: seq<nat>, node: nat, start: nat)
    requires Tree(ns, depth) && Live(ns, node) && start < |ns| && CleanPath(ns, node, MAX_CHAIN)
    ensures Resolve(ns, start, PathBytes(ns, node) + [SLASH] + [DOT, DOT]) == Some(ns[node].parent)
  {
    hide Resolve, NamesUnique, CleanPath;
    PathResolves(ns, depth, node, start);
    PathGiven(ns, depth, node);
    PathAfterPath(ns, start, PathBytes(ns, node), [DOT, DOT]);
    OneComponent(ns, node, [DOT, DOT]);
  }

  lemma PathGiven(ns: seq<Node>, depth: seq<nat>, node: nat)
    requires Tree(ns, depth) && Live(ns, node)
    ensures PathBytes(ns, node) != []
  {
    if node != ROOT { PrintedStarts(ns, Chain(ns, node, MAX_CHAIN)); }
  }

  /** Down to 32 levels, the path of a node is that of its directory, a slash and its name. */
  lemma PathOfChild(ns: seq<Node>, depth: seq<nat>, node: nat)
    requires Tree(ns, depth) && Live(ns, node) && node != ROOT && depth[node] <= MAX_CHAIN
    ensures var up := ns[node].parent;
            PathBytes(ns, node) == (if up == ROOT then [] else PathBytes(ns, up)) + [SLASH] + ns[node].name
    ensures PathBytes(ns, ROOT) == [SLASH]
  {
    hide NamesUnique;
    var up := ns[node].parent;
    ChainReachesRoot(ns, depth, up);
    ClimbRoot(ns, up, depth[up], MAX_CHAIN - 1);
    ChainEnds(ns, up, MAX_CHAIN - 1, MAX_CHAIN);
    var chain := Chain(ns, node, MAX_CHAIN);
    var above := Chain(ns, up, MAX_CHAIN - 1);
    assert chain == [node] + above && chain[1..] == above;
    hide Chain;
    assert Printed(ns, chain) == Printed(ns, above) + [SLASH] + ns[node].name;
    if up == ROOT {
      ChainOfRoot(ns, MAX_CHAIN - 1);
      assert Printed(ns, above) == [];
    } else {
      assert PathBytes(ns, up) == Printed(ns, above);
    }
  }

  lemma ChainOfRoot(ns: seq<Node>, n: nat)
    requires ParentsInside(ns) && |ns| > 0
    ensures Chain(ns, ROOT, n) == []
  {
  }

  /** Once at the root, one stays there. */
  lemma {:induction false} ClimbRoot(ns: seq<Node>, i: nat, n: nat, m: nat)
    requires ParentsInside(ns) && i < |ns| && ns[ROOT].parent == ROOT && n <= m && Climb(ns, i, n) == ROOT
    ensures Climb(ns, i, m) == ROOT
    decreases m
  {
    if n > 0 {
      ClimbRoot(ns, ns[i].parent, n - 1, m - 1);
    } else if m > 0 {
      ClimbRoot(ns, ROOT, 0, m - 1);
    }
  }
}
