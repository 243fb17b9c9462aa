/**
 * The draft-tree builder (src/hsml/buildTree.ts).
 *
 * The source builds a graph of node objects: a `byPath` map from a
 * `/`-joined path to its node, a `current` reference that walks down the
 * segments of each declaration, `children.push` on the current node when a
 * prefix is new, and in-place updates of `content` and `inlineStyle`.
 *
 * Here the node objects live in a table: cell `k` is the `k`-th node object
 * created (the root is cell 0), a child reference is a cell index, and
 * `byPath` maps a path to a cell index.  `BuildTable` runs the outer loop
 * of the source over that table and `Walk` its inner loop; both are proved
 * against `Built`/`Descend`, the
 * declaration-by-declaration specification; `ToTree` reads the table back as
 * the tree the root object spans.
 */
module TreeBuilder {
  import opened Base
  import opened Parser

  // ---------------------------------------------------------------- data

  /** A node object (HSMLNodeDraft) as stored in the table: its children are cell indices. */
  datatype Cell = Cell(name: string, path: string, children: seq<nat>, content: Option<Content>, inlineStyle: StyleMap)

  /** The node objects in creation order, and the `byPath` map. */
  datatype Table = Table(cells: seq<Cell>, byPath: map<string, nat>)

  /** The tree `buildTree` returns, as a value. */
  datatype DraftNode = DraftNode(name: string, path: string, children: seq<DraftNode>, content: Option<Content>, inlineStyle: StyleMap)

  /** A freshly created node object: no children, no content, an empty inline style. */
  function NewCell(name: string, path: string): Cell {
    Cell(name, path, [], None, map[])
  }

  /** The table before the first declaration: the root, registered under the empty path. */
  function Start(): Table {
    Table([NewCell("root", "")], map["" := 0])
  }

  /** `pathSoFar ? `${pathSoFar}/${seg}` : seg` */
  function JoinPath(soFar: string, seg: string): string {
    if soFar != [] then soFar + "/" + seg else seg
  }

  /** The value of `pathSoFar` after the first `j` segments of `segs`. */
  function PathOf(segs: seq<string>, j: nat): string
    requires j <= |segs|
  {
    if j == 0 then [] else JoinPath(PathOf(segs, j - 1), segs[j - 1])
  }

  /** `mergeStyles(a, b)`, that is `{ ...a, ...b }`: every key of either map, with the value of `b` where both have one. */
  function MergeStyles(a: StyleMap, b: StyleMap): StyleMap {
    a + b
  }

  /** The merge has every key of either map, with the value of `b` where both have one. */
  lemma MergeStylesFacts(a: StyleMap, b: StyleMap)
    ensures MergeStyles(a, b).Keys == a.Keys + b.Keys
    ensures forall k :: k in b ==> MergeStyles(a, b)[k] == b[k]
    ensures forall k :: k in a && k !in b ==> MergeStyles(a, b)[k] == a[k]
  {
  }

  // ---------------------------------------------- the steps of buildTree

  /** Every path in `byPath` names a cell of the table. */
  predicate Indexed(t: Table) {
    forall p :: p in t.byPath ==> t.byPath[p] < |t.cells|
  }

  /** `current.children.push(node); byPath.set(pathSoFar, node)` for a new node `name` at `path`. */
  function AddChild(t: Table, cur: nat, name: string, path: string): (r: Table)
    requires cur < |t.cells|
  {
    var n := |t.cells|;
    Table(t.cells[cur := t.cells[cur].(children := t.cells[cur].children + [n])] + [NewCell(name, path)],
          t.byPath[path := n])
  }

  /** The inner loop from segment `j` on with `current` at cell `cur`: the table it leaves and the cell it stops at. */
  function Descend(t: Table, segs: seq<string>, j: nat, cur: nat): (r: (Table, nat))
    requires Indexed(t) && cur < |t.cells| && j <= |segs|
    ensures Indexed(r.0) && r.1 < |r.0.cells| && |t.cells| <= |r.0.cells|
    decreases |segs| - j
  {
    if j == |segs| then (t, cur)
    else
      var p := PathOf(segs, j + 1);
      if p in t.byPath then Descend(t, segs, j + 1, t.byPath[p])
      else Descend(AddChild(t, cur, segs[j], p), segs, j + 1, |t.cells|)
  }

  /** `if (decl.content) ...; if (decl.inlineStyle) ...` on the cell the walk stopped at. */
  function Land(t: Table, cur: nat, d: NodeDecl): (r: Table)
    requires cur < |t.cells|
  {
    var c := t.cells[cur];
    var c1 := if d.content.Some? then c.(content := d.content) else c;
    var c2 := if d.inlineStyle.Some? then c1.(inlineStyle := MergeStyles(c1.inlineStyle, d.inlineStyle.value)) else c1;
    Table(t.cells[cur := c2], t.byPath)
  }

  /** The cell a declaration's content and style land on. */
  function Target(t: Table, d: NodeDecl): nat
    requires Indexed(t) && |t.cells| > 0
  {
    Descend(t, d.path, 0, 0).1
  }

  /** One pass of the outer loop: walk down the declaration's path from the root, then land on the node reached. */
  function Declare(t: Table, d: NodeDecl): (r: Table)
    requires Indexed(t) && |t.cells| > 0
    ensures Indexed(r) && |t.cells| <= |r.cells|
  {
    var w := Descend(t, d.path, 0, 0);
    Land(w.0, w.1, d)
  }

  /** The outer loop from declaration `i` on. */
  function DeclareFrom(t: Table, nodes: seq<NodeDecl>, i: nat): (r: Table)
    requires Indexed(t) && |t.cells| > 0 && i <= |nodes|
    ensures Indexed(r) && |r.cells| > 0
    decreases |nodes| - i
  {
    if i == |nodes| then t else DeclareFrom(Declare(t, nodes[i]), nodes, i + 1)
  }

  /** The table `buildTree(nodes)` leaves behind. */
  function Built(nodes: seq<NodeDecl>): Table {
    DeclareFrom(Start(), nodes, 0)
  }

  // ------------------------------------------------------- the invariant

  /** The root is cell 0, named `root`, at the empty path. */
  predicate Rooted(t: Table) {
    |t.cells| > 0 && t.cells[0].name == "root" && t.cells[0].path == []
  }

  /** `byPath` maps each of its paths to a node at that path. */
  predicate Registered(t: Table) {
    forall p :: p in t.byPath ==> t.byPath[p] < |t.cells| && t.cells[t.byPath[p]].path == p
  }

  /** Every node is registered under its own path, so no two nodes share a path. */
  predicate Listed(t: Table) {
    forall i :: 0 <= i < |t.cells| ==> t.cells[i].path in t.byPath && t.byPath[t.cells[i].path] == i
  }

  /** A child was created after its parent. */
  predicate Forward(cells: seq<Cell>) {
    forall i, k :: 0 <= i < |cells| && 0 <= k < |cells[i].children| ==> i < cells[i].children[k] < |cells|
  }

  /** A child's path is its parent's path joined with its name. */
  predicate Joined(cells: seq<Cell>)
    requires Forward(cells)
  {
    forall i, k :: 0 <= i < |cells| && 0 <= k < |cells[i].children| ==>
      cells[cells[i].children[k]].path == JoinPath(cells[i].path, cells[cells[i].children[k]].name)
  }

  /** Siblings are in creation order. */
  predicate Ordered(cells: seq<Cell>) {
    forall i, k1, k2 :: 0 <= i < |cells| && 0 <= k1 < k2 < |cells[i].children| ==> cells[i].children[k1] < cells[i].children[k2]
  }

  /** Cell `c` is the child of a cell created before it. */
  predicate HasParent(cells: seq<Cell>, c: nat)
    requires c < |cells|
  {
    exists i :: 0 <= i < c && c in cells[i].children
  }

  /** Every node but the root is the child of a node created before it. */
  predicate Owned(cells: seq<Cell>) {
    forall c :: 0 < c < |cells| ==> HasParent(cells, c)
  }

  predicate Valid(t: Table) {
    Rooted(t) && Registered(t) && Listed(t) && Forward(t.cells) && Joined(t.cells) && Ordered(t.cells) && Owned(t.cells)
  }

  /** The root table satisfies the invariant. */
  lemma StartValid()
    ensures Valid(Start())
  {
  }

  /** A new node at a path not yet registered, one segment below `cur`, keeps the invariant. */
  lemma AddChildValid(t: Table, cur: nat, name: string, path: string)
    requires Valid(t) && cur < |t.cells| && path !in t.byPath && path == JoinPath(t.cells[cur].path, name)
    ensures Valid(AddChild(t, cur, name, path))
  {
    var r := AddChild(t, cur, name, path);
    assert Rooted(r);
    AddChildRegistered(t, cur, name, path);
    AddChildListed(t, cur, name, path);
    AddChildLinks(t, cur, name, path);
    AddChildOrdered(t, cur, name, path);
    AddChildOwned(t, cur, name, path);
  }

  lemma AddChildRegistered(t: Table, cur: nat, name: string, path: string)
    requires Registered(t) && cur < |t.cells|
    ensures Registered(AddChild(t, cur, name, path))
  {
  }

  lemma AddChildListed(t: Table, cur: nat, name: string, path: string)
    requires Listed(t) && cur < |t.cells| && path !in t.byPath
    ensures Listed(AddChild(t, cur, name, path))
  {
    var r := AddChild(t, cur, name, path);
    forall i | 0 <= i < |r.cells|
      ensures r.cells[i].path in r.byPath && r.byPath[r.cells[i].path] == i
    {
      if i < |t.cells| {
        assert r.cells[i].path == t.cells[i].path;
      }
    }
  }

  lemma AddChildLinks(t: Table, cur: nat, name: string, path: string)
    requires Forward(t.cells) && Joined(t.cells) && cur < |t.cells| && path == JoinPath(t.cells[cur].path, name)
    ensures Forward(AddChild(t, cur, name, path).cells) && Joined(AddChild(t, cur, name, path).cells)
  {
    var r := AddChild(t, cur, name, path);
    var n := |t.cells|;
    forall i, k | 0 <= i < |r.cells| && 0 <= k < |r.cells[i].children|
      ensures i < r.cells[i].children[k] < |r.cells|
    {
      if i == cur && k == |t.cells[cur].children| {
      } else {
        assert r.cells[i].children[k] == t.cells[i].children[k];
      }
    }
    forall i, k | 0 <= i < |r.cells| && 0 <= k < |r.cells[i].children|
      ensures r.cells[r.cells[i].children[k]].path == JoinPath(r.cells[i].path, r.cells[r.cells[i].children[k]].name)
    {
      if i == cur && k == |t.cells[cur].children| {
        assert r.cells[i].children[k] == n;
      } else {
        assert r.cells[i].children[k] == t.cells[i].children[k];
      }
    }
  }

  lemma AddChildOrdered(t: Table, cur: nat, name: string, path: string)
    requires Forward(t.cells) && Ordered(t.cells) && cur < |t.cells|
    ensures Ordered(AddChild(t, cur, name, path).cells)
  {
    var r := AddChild(t, cur, name, path);
    forall i, k1, k2 | 0 <= i < |r.cells| && 0 <= k1 < k2 < |r.cells[i].children|
      ensures r.cells[i].children[k1] < r.cells[i].children[k2]
    {
      if i == cur && k2 == |t.cells[cur].children| {
        assert r.cells[i].children[k1] == t.cells[i].children[k1];
      } else {
        assert r.cells[i].children[k1] == t.cells[i].children[k1];
        assert r.cells[i].children[k2] == t.cells[i].children[k2];
      }
    }
  }

  lemma AddChildOwned(t: Table, cur: nat, name: string, path: string)
    requires Owned(t.cells) && cur < |t.cells|
    ensures Owned(AddChild(t, cur, name, path).cells)
  {
    var r := AddChild(t, cur, name, path);
    forall c | 0 < c < |r.cells|
      ensures HasParent(r.cells, c)
    {
      if c == |t.cells| {
        assert c in r.cells[cur].children;
      } else {
        assert HasParent(t.cells, c);
        var i :| 0 <= i < c && c in t.cells[i].children;
        assert t.cells[i].children <= r.cells[i].children;
        assert c in r.cells[i].children;
      }
    }
  }

  /** Two tables with the same names, paths and children and the same `byPath`. */
  predicate SameShape(t: Table, u: Table) {
    t.byPath == u.byPath && |t.cells| == |u.cells| &&
    forall i :: 0 <= i < |t.cells| ==>
      t.cells[i].name == u.cells[i].name && t.cells[i].path == u.cells[i].path && t.cells[i].children == u.cells[i].children
  }

  /** The invariant speaks only of names, paths, children and `byPath`. */
  lemma ShapeValid(t: Table, u: Table)
    requires Valid(t) && SameShape(t, u)
    ensures Valid(u)
  {
    assert Rooted(u);
    assert Registered(u);
    assert Listed(u);
    assert Forward(u.cells);
    assert Joined(u.cells);
    assert Ordered(u.cells);
    forall c | 0 < c < |u.cells|
      ensures HasParent(u.cells, c)
    {
      assert HasParent(t.cells, c);
      var i :| 0 <= i < c && c in t.cells[i].children;
      assert c in u.cells[i].children;
    }
  }

  /** Walking down a path keeps the invariant and stops at the node registered under the whole path. */
  lemma {:induction false} DescendValid(t: Table, segs: seq<string>, j: nat, cur: nat)
    requires Valid(t) && cur < |t.cells| && j <= |segs| && t.cells[cur].path == PathOf(segs, j)
    ensures Valid(Descend(t, segs, j, cur).0)
    ensures Descend(t, segs, j, cur).0.cells[Descend(t, segs, j, cur).1].path == PathOf(segs, |segs|)
    decreases |segs| - j
  {
    if j < |segs| {
      var r := Descend(t, segs, j, cur);
      var p := PathOf(segs, j + 1);
      if p in t.byPath {
        assert r == Descend(t, segs, j + 1, t.byPath[p]);
        DescendValid(t, segs, j + 1, t.byPath[p]);
      } else {
        var t2 := AddChild(t, cur, segs[j], p);
        assert r == Descend(t2, segs, j + 1, |t.cells|);
        AddChildValid(t, cur, segs[j], p);
        DescendValid(t2, segs, j + 1, |t.cells|);
      }
    }
  }

  /** A declaration keeps the invariant. */
  lemma DeclareValid(t: Table, d: NodeDecl)
    requires Valid(t)
    ensures Valid(Declare(t, d))
  {
    var w := Descend(t, d.path, 0, 0);
    assert Declare(t, d) == Land(w.0, w.1, d);
    DescendValid(t, d.path, 0, 0);
    assert SameShape(w.0, Land(w.0, w.1, d));
    ShapeValid(w.0, Land(w.0, w.1, d));
  }

  lemma {:induction false} DeclareFromValid(t: Table, nodes: seq<NodeDecl>, i: nat)
    requires Valid(t) && i <= |nodes|
    ensures Valid(DeclareFrom(t, nodes, i))
    decreases |nodes| - i
  {
    if i < |nodes| {
      DeclareValid(t, nodes[i]);
      DeclareFromValid(Declare(t, nodes[i]), nodes, i + 1);
    }
  }

  /** The table `buildTree` leaves satisfies the invariant. */
  lemma BuiltValid(nodes: seq<NodeDecl>)
    ensures Valid(Built(nodes))
  {
    StartValid();
    DeclareFromValid(Start(), nodes, 0);
  }

  // ------------------------------------------------------------ the loops

  // The two loops of `buildTree` over the node table.
  /** The inner loop of the builder: walks down `segments` from the root, creating each missing node. */
  method Walk(cells0: seq<Cell>, byPath0: map<string, nat>, segments: seq<string>)
    returns (cells: seq<Cell>, byPath: map<string, nat>, current: nat)
    requires Indexed(Table(cells0, byPath0)) && |cells0| > 0
    ensures (Table(cells, byPath), current) == Descend(Table(cells0, byPath0), segments, 0, 0)
  {
    cells, byPath, current := cells0, byPath0, 0;
    var pathSoFar := "";
    var j: nat := 0;
    while j < |segments|
      invariant j <= |segments| && current < |cells| && Indexed(Table(cells, byPath))
      invariant pathSoFar == PathOf(segments, j)
      invariant Descend(Table(cells, byPath), segments, j, current) == Descend(Table(cells0, byPath0), segments, 0, 0)
      decreases |segments| - j
    {
      ghost var here, prev := Table(cells, byPath), current;
      var seg := segments[j];
      pathSoFar := if pathSoFar != "" then pathSoFar + "/" + seg else seg;
      assert pathSoFar == PathOf(segments, j + 1);
      if pathSoFar in byPath {
        current := byPath[pathSoFar];
        assert Descend(here, segments, j, prev) == Descend(here, segments, j + 1, current);
      } else {
        var node := NewCell(seg, pathSoFar);
        var id := |cells|;
        cells := cells[current := cells[current].(children := cells[current].children + [id])] + [node];
        byPath := byPath[pathSoFar := id];
        assert Table(cells, byPath) == AddChild(here, current, seg, pathSoFar);
        current := id;
      }
      j := j + 1;
    }
  }

  /** The builder: declares each node in order on a table holding only the root. */
  method BuildTable(nodes: seq<NodeDecl>) returns (cells: seq<Cell>, byPath: map<string, nat>)
    ensures Table(cells, byPath) == Built(nodes)
  {
    cells := [NewCell("root", "")];
    byPath := map["" := 0];
    var i: nat := 0;
    while i < |nodes|
      invariant i <= |nodes| && Indexed(Table(cells, byPath)) && |cells| > 0
      invariant DeclareFrom(Table(cells, byPath), nodes, i) == Built(nodes)
      decreases |nodes| - i
    {
      var decl := nodes[i];
      ghost var before := Table(cells, byPath);
      var current;
      cells, byPath, current := Walk(cells, byPath, decl.path);
      ghost var landed := Land(Table(cells, byPath), current, decl);
      assert Declare(before, decl) == landed;
      if decl.content.Some? {
        cells := cells[current := cells[current].(content := decl.content)];
      }
      if decl.inlineStyle.Some? {
        cells := cells[current := cells[current].(inlineStyle := MergeStyles(cells[current].inlineStyle, decl.inlineStyle.value))];
      }
      assert Table(cells, byPath) == landed;
      assert DeclareFrom(before, nodes, i) == DeclareFrom(landed, nodes, i + 1);
      i := i + 1;
    }
  }

  // ------------------------------------------------------------ the tree

  /** The tree the node object in cell `i` spans, children in the order of its children list. */
  function ToTree(cells: seq<Cell>, i: nat): DraftNode
    requires Forward(cells) && i < |cells|
    decreases |cells| - i
  {
    var c := cells[i];
    DraftNode(c.name, c.path, seq(|c.children|, k requires 0 <= k < |c.children| => ToTree(cells, c.children[k])),
              c.content, c.inlineStyle)
  }

  /** `buildTree(nodes)`: the tree the root spans once every declaration is merged. */
  function Tree(nodes: seq<NodeDecl>): DraftNode {
    BuiltValid(nodes);
    ToTree(Built(nodes).cells, 0)
  }

  /** `buildTree`: run the loops, then hand back the root. */
  method BuildTree(nodes: seq<NodeDecl>) returns (root: DraftNode)
    ensures root == Tree(nodes)
  {
    var cells, byPath := BuildTable(nodes);
    BuiltValid(nodes);
    root := ToTree(cells, 0);
  }
}
