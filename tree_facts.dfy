/**
 * What `buildTree` (src/hsml/buildTree.ts) promises about the tree it
 * returns and about each declaration it merges: one node per distinct path
 * prefix, unique paths, child paths joined from the parent's, siblings in
 * first-seen order, content replaced only when given, inline styles merged
 * with the later declaration winning.
 */
module TreeFacts {
  import opened Base
  import opened Parser
  import opened TreeBuilder

  // ------------------------------------------------------------ joining

  /** Children of the same name under different paths get different paths. */
  lemma JoinPathInjective(a: string, b: string, n: string)
    requires JoinPath(a, n) == JoinPath(b, n)
    ensures a == b
  {
    if a != [] && b != [] {
      assert |a| == |b|;
      assert a == JoinPath(a, n)[..|a|];
      assert b == JoinPath(b, n)[..|b|];
    }
  }

  // ----------------------------------------------------------- ownership

  /** The parent of cell `c`: a cell whose children list holds `c`. */
  ghost function Parent(cells: seq<Cell>, c: nat): (p: nat)
    requires Owned(cells) && 0 < c < |cells|
    ensures p < c && c in cells[p].children
  {
    assert HasParent(cells, c);
    var i :| 0 <= i < c && c in cells[i].children;
    i
  }

  /** A node has one parent: the only cell whose children list holds it. */
  lemma ParentUnique(t: Table, c: nat, i: nat)
    requires Valid(t) && 0 < c < |t.cells| && i < |t.cells| && c in t.cells[i].children
    ensures Parent(t.cells, c) == i
  {
    var cells := t.cells;
    var p := Parent(cells, c);
    var k :| 0 <= k < |cells[i].children| && cells[i].children[k] == c;
    var kp :| 0 <= kp < |cells[p].children| && cells[p].children[kp] == c;
    assert cells[c].path == JoinPath(cells[i].path, cells[c].name);
    assert cells[c].path == JoinPath(cells[p].path, cells[c].name);
    JoinPathInjective(cells[i].path, cells[p].path, cells[c].name);
  }

  /** Cell `x` and the cells on its way up to the root. */
  ghost function Anc(cells: seq<Cell>, x: nat): set<nat>
    requires Owned(cells) && x < |cells|
    decreases x
  {
    if x == 0 then {0} else {x} + Anc(cells, Parent(cells, x))
  }

  lemma {:induction false} AncBounds(cells: seq<Cell>, x: nat)
    requires Owned(cells) && x < |cells|
    ensures x in Anc(cells, x) && 0 in Anc(cells, x)
    ensures forall y :: y in Anc(cells, x) ==> y <= x
    decreases x
  {
    if x > 0 {
      AncBounds(cells, Parent(cells, x));
    }
  }

  /** The way up from `x` passes through the parent of every cell on it. */
  lemma {:induction false} AncStep(cells: seq<Cell>, x: nat, y: nat)
    requires Owned(cells) && x < |cells| && 0 < y < |cells| && y in Anc(cells, x)
    ensures Parent(cells, y) in Anc(cells, x)
    decreases x
  {
    if y == x {
      AncBounds(cells, Parent(cells, x));
    } else {
      AncStep(cells, Parent(cells, x), y);
    }
  }

  /** The way up from `x` passes through at most one child of each cell. */
  lemma {:induction false} AncOneChildOf(cells: seq<Cell>, x: nat, y1: nat, y2: nat)
    requires Owned(cells) && x < |cells| && y1 in Anc(cells, x) && y2 in Anc(cells, x)
    requires 0 < y1 < |cells| && 0 < y2 < |cells| && Parent(cells, y1) == Parent(cells, y2)
    ensures y1 == y2
    decreases x
  {
    if x > 0 {
      var px := Parent(cells, x);
      AncBounds(cells, px);
      if y1 != x && y2 != x {
        AncOneChildOf(cells, px, y1, y2);
      }
    }
  }

  /** When the way up from `x` passes through `i` above `x`, it passes through a child of `i`. */
  lemma {:induction false} AncChild(cells: seq<Cell>, x: nat, i: nat) returns (y: nat)
    requires Owned(cells) && x < |cells| && i in Anc(cells, x) && i != x
    ensures 0 < y < |cells| && y in Anc(cells, x) && Parent(cells, y) == i
    decreases x
  {
    var px := Parent(cells, x);
    if px == i {
      y := x;
    } else {
      y := AncChild(cells, px, i);
    }
  }

  // ------------------------------------------------------------- subtrees

  /** The cells whose way up passes through cell `i`: the nodes of the tree `i` spans. */
  ghost function Desc(cells: seq<Cell>, i: nat): set<nat>
    requires Owned(cells)
  {
    set x | 0 <= x < |cells| && i in Anc(cells, x)
  }

  /** The nodes of the trees that the cells `chs[m..]` span. */
  ghost function DescFrom(cells: seq<Cell>, chs: seq<nat>, m: nat): set<nat>
    requires Owned(cells) && m <= |chs|
    decreases |chs| - m
  {
    if m == |chs| then {} else Desc(cells, chs[m]) + DescFrom(cells, chs, m + 1)
  }

  lemma {:induction false} InDescFrom(cells: seq<Cell>, chs: seq<nat>, m: nat, x: nat) returns (k: nat)
    requires Owned(cells) && m <= |chs| && x in DescFrom(cells, chs, m)
    ensures m <= k < |chs| && x in Desc(cells, chs[k])
    decreases |chs| - m
  {
    if x in Desc(cells, chs[m]) {
      k := m;
    } else {
      k := InDescFrom(cells, chs, m + 1, x);
    }
  }

  lemma {:induction false} DescFromHas(cells: seq<Cell>, chs: seq<nat>, m: nat, k: nat, x: nat)
    requires Owned(cells) && m <= k < |chs| && x in Desc(cells, chs[k])
    ensures x in DescFrom(cells, chs, m)
    decreases k - m
  {
    if m < k {
      DescFromHas(cells, chs, m + 1, k, x);
    }
  }

  lemma DescAbove(cells: seq<Cell>, c: nat, x: nat)
    requires Owned(cells) && x in Desc(cells, c)
    ensures c <= x
  {
    AncBounds(cells, x);
  }

  /** The nodes under cell `i` are `i` and the nodes under its children. */
  lemma DescSplit(t: Table, i: nat)
    requires Valid(t) && i < |t.cells|
    ensures Desc(t.cells, i) == {i} + DescFrom(t.cells, t.cells[i].children, 0)
  {
    var cells := t.cells;
    var ch := cells[i].children;
    forall x | x in Desc(cells, i)
      ensures x in {i} + DescFrom(cells, ch, 0)
    {
      if x != i {
        var y := AncChild(cells, x, i);
        var k :| 0 <= k < |ch| && ch[k] == y;
        assert x in Desc(cells, ch[k]);
        DescFromHas(cells, ch, 0, k, x);
      }
    }
    forall x | x in DescFrom(cells, ch, 0)
      ensures x in Desc(cells, i)
    {
      var k := InDescFrom(cells, ch, 0, x);
      ParentUnique(t, ch[k], i);
      AncStep(cells, x, ch[k]);
    }
    AncBounds(cells, i);
  }

  /** The trees of two siblings share no node. */
  lemma SiblingsApart(t: Table, i: nat, k1: nat, k2: nat)
    requires Valid(t) && i < |t.cells| && k1 < k2 < |t.cells[i].children|
    ensures Desc(t.cells, t.cells[i].children[k1]) !! Desc(t.cells, t.cells[i].children[k2])
  {
    var cells := t.cells;
    var a := cells[i].children[k1];
    var b := cells[i].children[k2];
    ParentUnique(t, a, i);
    ParentUnique(t, b, i);
    forall x | x in Desc(cells, a)
      ensures x !in Desc(cells, b)
    {
      if x in Desc(cells, b) {
        AncOneChildOf(cells, x, a, b);
      }
    }
  }

  // ------------------------------------------------------------- paths

  /** The paths of a tree: its own, then each child's tree in turn. */
  function TreePaths(n: DraftNode): seq<string>
    decreases n, 1
  {
    [n.path] + ForestPaths(n.children, 0)
  }

  function ForestPaths(ts: seq<DraftNode>, m: nat): seq<string>
    requires m <= |ts|
    decreases ts, 0, |ts| - m
  {
    if m == |ts| then [] else TreePaths(ts[m]) + ForestPaths(ts, m + 1)
  }

  function Elems(s: seq<string>): set<string> {
    set p | p in s
  }

  predicate NoDup(s: seq<string>) {
    forall a, b :: 0 <= a < b < |s| ==> s[a] != s[b]
  }

  /** The paths of a set of cells. */
  ghost function PathSet(cells: seq<Cell>, xs: set<nat>): set<string> {
    set x | x in xs && x < |cells| :: cells[x].path
  }

  lemma NoDupAppend(a: seq<string>, b: seq<string>)
    requires NoDup(a) && NoDup(b) && Elems(a) !! Elems(b)
    ensures NoDup(a + b) && Elems(a + b) == Elems(a) + Elems(b)
  {
    forall i, j | 0 <= i < j < |a + b|
      ensures (a + b)[i] != (a + b)[j]
    {
      if j < |a| {
      } else if i >= |a| {
        assert (a + b)[i] == b[i - |a|] && (a + b)[j] == b[j - |a|];
      } else {
        assert (a + b)[i] in Elems(a) && (a + b)[j] in Elems(b);
      }
    }
    assert forall p :: p in a + b <==> p in a || p in b;
  }

  /** No two cells share a path. */
  lemma SamePathSameCell(t: Table, x: nat, y: nat)
    requires Listed(t) && x < |t.cells| && y < |t.cells| && t.cells[x].path == t.cells[y].path
    ensures x == y
  {
  }

  lemma PathSetUnion(cells: seq<Cell>, xs: set<nat>, ys: set<nat>)
    ensures PathSet(cells, xs + ys) == PathSet(cells, xs) + PathSet(cells, ys)
  {
  }

  /** The paths under the child `m` of cell `i` are none of the paths under its later children. */
  lemma HeadApart(t: Table, i: nat, m: nat)
    requires Valid(t) && i < |t.cells| && m < |t.cells[i].children|
    ensures PathSet(t.cells, Desc(t.cells, t.cells[i].children[m])) !! PathSet(t.cells, DescFrom(t.cells, t.cells[i].children, m + 1))
  {
    var cells := t.cells;
    var ch := cells[i].children;
    forall p | p in PathSet(cells, Desc(cells, ch[m]))
      ensures p !in PathSet(cells, DescFrom(cells, ch, m + 1))
    {
      if p in PathSet(cells, DescFrom(cells, ch, m + 1)) {
        var x :| x in Desc(cells, ch[m]) && x < |cells| && cells[x].path == p;
        var y :| y in DescFrom(cells, ch, m + 1) && y < |cells| && cells[y].path == p;
        SamePathSameCell(t, x, y);
        var k := InDescFrom(cells, ch, m + 1, y);
        SiblingsApart(t, i, m, k);
      }
    }
  }

  /** The trees `ts[m..]` of the children of cell `i` have pairwise different paths, those of the cells under `i`'s children from `m` on. */
  lemma {:induction false} ForestUnique(t: Table, i: nat, ts: seq<DraftNode>, m: nat)
    requires Valid(t) && i < |t.cells| && |ts| == |t.cells[i].children| && m <= |ts|
    requires forall k :: m <= k < |ts| ==>
      NoDup(TreePaths(ts[k])) && Elems(TreePaths(ts[k])) == PathSet(t.cells, Desc(t.cells, t.cells[i].children[k]))
    ensures NoDup(ForestPaths(ts, m))
    ensures Elems(ForestPaths(ts, m)) == PathSet(t.cells, DescFrom(t.cells, t.cells[i].children, m))
    decreases |ts| - m
  {
    if m < |ts| {
      var cells := t.cells;
      var ch := cells[i].children;
      ForestUnique(t, i, ts, m + 1);
      HeadApart(t, i, m);
      NoDupAppend(TreePaths(ts[m]), ForestPaths(ts, m + 1));
      PathSetUnion(cells, Desc(cells, ch[m]), DescFrom(cells, ch, m + 1));
    }
  }

  /** The paths in the tree of cell `i` are pairwise different, and they are the paths of the cells under `i`. */
  lemma {:induction false} TreeUnique(t: Table, i: nat)
    requires Valid(t) && i < |t.cells|
    ensures NoDup(TreePaths(ToTree(t.cells, i)))
    ensures Elems(TreePaths(ToTree(t.cells, i))) == PathSet(t.cells, Desc(t.cells, i))
    decreases |t.cells| - i
  {
    var cells := t.cells;
    var ch := cells[i].children;
    var n := ToTree(cells, i);
    forall k | 0 <= k < |ch|
      ensures NoDup(TreePaths(n.children[k])) && Elems(TreePaths(n.children[k])) == PathSet(cells, Desc(cells, ch[k]))
    {
      TreeUnique(t, ch[k]);
    }
    ForestUnique(t, i, n.children, 0);
    var rest := ForestPaths(n.children, 0);
    assert Elems([cells[i].path]) !! Elems(rest) by {
      assert Elems([cells[i].path]) == {cells[i].path};
      forall p | p in Elems(rest)
        ensures p != cells[i].path
      {
        var y :| y in DescFrom(cells, ch, 0) && y < |cells| && cells[y].path == p;
        var k := InDescFrom(cells, ch, 0, y);
        DescAbove(cells, ch[k], y);
      }
    }
    NoDupAppend([cells[i].path], rest);
    DescSplit(t, i);
    PathSetUnion(cells, {i}, DescFrom(cells, ch, 0));
  }

  /** Every cell is in the tree of the root. */
  lemma AllUnderRoot(t: Table)
    requires Valid(t)
    ensures PathSet(t.cells, Desc(t.cells, 0)) == t.byPath.Keys
  {
    var cells := t.cells;
    forall p | p in t.byPath
      ensures p in PathSet(cells, Desc(cells, 0))
    {
      var x := t.byPath[p];
      AncBounds(cells, x);
      assert x in Desc(cells, 0);
    }
  }

  // ---------------------------------------------------------- the prefixes

  /** The paths of the prefixes of `segs` longer than `j` segments. */
  function PathsFrom(segs: seq<string>, j: nat): set<string>
    requires j <= |segs|
    decreases |segs| - j
  {
    if j == |segs| then {} else {PathOf(segs, j + 1)} + PathsFrom(segs, j + 1)
  }

  /** The paths of every non-empty prefix of the declarations from `i` on. */
  function PrefixesFrom(nodes: seq<NodeDecl>, i: nat): set<string>
    requires i <= |nodes|
    decreases |nodes| - i
  {
    if i == |nodes| then {} else PathsFrom(nodes[i].path, 0) + PrefixesFrom(nodes, i + 1)
  }

  /** The walk registers exactly the prefixes it passes. */
  lemma {:induction false} DescendKeys(t: Table, segs: seq<string>, j: nat, cur: nat)
    requires Indexed(t) && cur < |t.cells| && j <= |segs|
    ensures Descend(t, segs, j, cur).0.byPath.Keys == t.byPath.Keys + PathsFrom(segs, j)
    decreases |segs| - j
  {
    if j < |segs| {
      var r := Descend(t, segs, j, cur);
      var p := PathOf(segs, j + 1);
      if p in t.byPath {
        assert r == Descend(t, segs, j + 1, t.byPath[p]);
        DescendKeys(t, segs, j + 1, t.byPath[p]);
      } else {
        var t2 := AddChild(t, cur, segs[j], p);
        assert r == Descend(t2, segs, j + 1, |t.cells|);
        DescendKeys(t2, segs, j + 1, |t.cells|);
      }
    }
  }

  lemma {:induction false} DeclareFromKeys(t: Table, nodes: seq<NodeDecl>, i: nat)
    requires Indexed(t) && |t.cells| > 0 && i <= |nodes|
    ensures DeclareFrom(t, nodes, i).byPath.Keys == t.byPath.Keys + PrefixesFrom(nodes, i)
    decreases |nodes| - i
  {
    if i < |nodes| {
      DescendKeys(t, nodes[i].path, 0, 0);
      assert Declare(t, nodes[i]).byPath == Descend(t, nodes[i].path, 0, 0).0.byPath;
      DeclareFromKeys(Declare(t, nodes[i]), nodes, i + 1);
    }
  }

  // ------------------------------------------------------------ the tree

  /** Every child's path is its parent's path joined with the child's name, all the way down. */
  predicate PathsJoined(n: DraftNode)
    decreases n
  {
    forall k :: 0 <= k < |n.children| ==>
      n.children[k].path == JoinPath(n.path, n.children[k].name) && PathsJoined(n.children[k])
  }

  lemma {:induction false} ToTreeJoined(cells: seq<Cell>, i: nat)
    requires Forward(cells) && Joined(cells) && i < |cells|
    ensures PathsJoined(ToTree(cells, i))
    decreases |cells| - i
  {
    var n := ToTree(cells, i);
    forall k | 0 <= k < |n.children|
      ensures n.children[k].path == JoinPath(n.path, n.children[k].name) && PathsJoined(n.children[k])
    {
      ToTreeJoined(cells, cells[i].children[k]);
    }
  }

  /** `buildTree([])` is the root alone: named `root`, at the empty path, with no children. */
  lemma TreeOfNothing()
    ensures Tree([]) == DraftNode("root", "", [], None, map[])
  {
    assert Built([]) == Start();
  }

  /** The root of `buildTree(nodes)` is named `root` and sits at the empty path. */
  lemma TreeRoot(nodes: seq<NodeDecl>)
    ensures Tree(nodes).name == "root" && Tree(nodes).path == ""
  {
    BuiltValid(nodes);
  }

  /** In `buildTree(nodes)`, a child's path is its parent's path, a `/` and its name, or just its name under the root. */
  lemma TreeJoined(nodes: seq<NodeDecl>)
    ensures PathsJoined(Tree(nodes))
  {
    BuiltValid(nodes);
    ToTreeJoined(Built(nodes).cells, 0);
  }

  /** No two nodes of `buildTree(nodes)` share a path. */
  lemma TreePathsUnique(nodes: seq<NodeDecl>)
    ensures NoDup(TreePaths(Tree(nodes)))
  {
    BuiltValid(nodes);
    TreeUnique(Built(nodes), 0);
  }

  /** The paths of `buildTree(nodes)` are the empty path of the root and every prefix of every declared path. */
  lemma TreeHasEveryPrefix(nodes: seq<NodeDecl>)
    ensures Elems(TreePaths(Tree(nodes))) == {""} + PrefixesFrom(nodes, 0)
  {
    var t := Built(nodes);
    BuiltValid(nodes);
    TreeUnique(t, 0);
    AllUnderRoot(t);
    DeclareFromKeys(Start(), nodes, 0);
  }

  // ------------------------------------------------- one declaration

  /** `u` extends `t`: old nodes keep name, path, content and style, and their children lists only grow at the end; new nodes hold no content and an empty style. */
  predicate Grown(t: Table, u: Table) {
    |t.cells| <= |u.cells| &&
    (forall i :: 0 <= i < |t.cells| ==>
      u.cells[i].name == t.cells[i].name && u.cells[i].path == t.cells[i].path &&
      u.cells[i].content == t.cells[i].content && u.cells[i].inlineStyle == t.cells[i].inlineStyle &&
      t.cells[i].children <= u.cells[i].children) &&
    (forall i :: |t.cells| <= i < |u.cells| ==> u.cells[i].content.None? && u.cells[i].inlineStyle == map[])
  }

  lemma GrownTrans(t: Table, u: Table, v: Table)
    requires Grown(t, u) && Grown(u, v)
    ensures Grown(t, v)
  {
    forall i | 0 <= i < |t.cells|
      ensures t.cells[i].children <= v.cells[i].children
    {
      assert t.cells[i].children <= u.cells[i].children <= v.cells[i].children;
    }
  }

  lemma AddChildGrown(t: Table, cur: nat, name: string, path: string)
    requires cur < |t.cells|
    ensures Grown(t, AddChild(t, cur, name, path))
  {
  }

  /** The walk only appends children and creates empty nodes. */
  lemma {:induction false} DescendGrown(t: Table, segs: seq<string>, j: nat, cur: nat)
    requires Indexed(t) && cur < |t.cells| && j <= |segs|
    ensures Grown(t, Descend(t, segs, j, cur).0)
    decreases |segs| - j
  {
    var r := Descend(t, segs, j, cur);
    if j == |segs| {
      assert r.0 == t;
    } else {
      var p := PathOf(segs, j + 1);
      if p in t.byPath {
        assert r == Descend(t, segs, j + 1, t.byPath[p]);
        DescendGrown(t, segs, j + 1, t.byPath[p]);
      } else {
        var t2 := AddChild(t, cur, segs[j], p);
        assert r == Descend(t2, segs, j + 1, |t.cells|);
        AddChildGrown(t, cur, segs[j], p);
        DescendGrown(t2, segs, j + 1, |t.cells|);
        GrownTrans(t, t2, r.0);
      }
    }
  }

  /** The content of cell `i` before a declaration: none for a node the declaration creates. */
  function OldContent(t: Table, i: nat): Option<Content> {
    if i < |t.cells| then t.cells[i].content else None
  }

  /** The inline style of cell `i` before a declaration: empty for a node the declaration creates. */
  function OldStyle(t: Table, i: nat): StyleMap {
    if i < |t.cells| then t.cells[i].inlineStyle else map[]
  }

  /** A declaration replaces the content of the node it reaches only when it carries content, and merges its style over that node's style, the declaration winning. */
  lemma DeclareLands(t: Table, d: NodeDecl)
    requires Indexed(t) && |t.cells| > 0
    ensures var c := Target(t, d);
      c < |Declare(t, d).cells| &&
      Declare(t, d).cells[c].content == (if d.content.Some? then d.content else OldContent(t, c)) &&
      Declare(t, d).cells[c].inlineStyle ==
        (if d.inlineStyle.Some? then MergeStyles(OldStyle(t, c), d.inlineStyle.value) else OldStyle(t, c))
  {
    DescendGrown(t, d.path, 0, 0);
  }

  /** A declaration leaves the content and style of every other node as they were. */
  lemma DeclareKeepsOthers(t: Table, d: NodeDecl)
    requires Indexed(t) && |t.cells| > 0
    ensures forall i :: 0 <= i < |Declare(t, d).cells| && i != Target(t, d) ==>
      Declare(t, d).cells[i].content == OldContent(t, i) && Declare(t, d).cells[i].inlineStyle == OldStyle(t, i)
  {
    DescendGrown(t, d.path, 0, 0);
  }

  /** A declaration never renames, moves, removes or reorders an existing node or child: children lists only grow at the end. */
  lemma DeclareKeepsChildren(t: Table, d: NodeDecl)
    requires Indexed(t) && |t.cells| > 0
    ensures forall i :: 0 <= i < |t.cells| ==>
      Declare(t, d).cells[i].name == t.cells[i].name && Declare(t, d).cells[i].path == t.cells[i].path &&
      t.cells[i].children <= Declare(t, d).cells[i].children
  {
    DescendGrown(t, d.path, 0, 0);
  }

  /** A declaration lands on the node registered under its whole path; an empty path lands on the root. */
  lemma DeclareTarget(t: Table, d: NodeDecl)
    requires Valid(t)
    ensures var c := Target(t, d);
      c < |Declare(t, d).cells| && Declare(t, d).cells[c].path == PathOf(d.path, |d.path|) &&
      PathOf(d.path, |d.path|) in Declare(t, d).byPath && Declare(t, d).byPath[PathOf(d.path, |d.path|)] == c
    ensures d.path == [] ==> Target(t, d) == 0
  {
    DescendValid(t, d.path, 0, 0);
    DeclareValid(t, d);
    var c, u := Target(t, d), Declare(t, d);
    assert u.cells[c].path == Descend(t, d.path, 0, 0).0.cells[c].path;
    assert Listed(u);
    assert u.cells[c].path in u.byPath && u.byPath[u.cells[c].path] == c;
  }
}
