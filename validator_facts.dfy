/**
 * Properties of the validator: the walk is pre-order, each check reports
 * exactly the conditions it tests, warnings come only from the overflow
 * check, every issue names its node, and a measured tree can always be
 * checked.
 */
module ValidatorFacts {
  import opened Base
  import opened Types
  import opened Measure
  import opened Validator

  // ------------------------------------------------------------- the walk

  /** The nodes of a tree in pre-order: the node, then each child's subtree in turn. */
  function PreOrder(node: Node): (r: seq<Node>)
    ensures |r| > 0 && r[0] == node
    decreases node, |node.children| + 1
  {
    [node] + ChildOrder(node, |node.children|)
  }

  /** The pre-order of the subtrees of the first `k` children. */
  function ChildOrder(node: Node, k: nat): seq<Node>
    requires k <= |node.children|
    decreases node, k
  {
    if k == 0 then [] else ChildOrder(node, k - 1) + PreOrder(node.children[k - 1])
  }

  /** What `fn` appends for a list of nodes, one node after another. */
  function ConcatOf(nodes: seq<Node>, fn: Node -> seq<Issue>): seq<Issue>
    decreases |nodes|
  {
    if nodes == [] then [] else ConcatOf(nodes[..|nodes| - 1], fn) + fn(nodes[|nodes| - 1])
  }

  lemma {:induction false} ConcatAppend(a: seq<Node>, b: seq<Node>, fn: Node -> seq<Issue>)
    ensures ConcatOf(a + b, fn) == ConcatOf(a, fn) + ConcatOf(b, fn)
    decreases |b|
  {
    if b == [] {
      assert a + b == a;
    } else {
      var n := |b| - 1;
      assert (a + b)[..|a + b| - 1] == a + b[..n];
      ConcatAppend(a, b[..n], fn);
      AppendAssoc(ConcatOf(a, fn), ConcatOf(b[..n], fn), fn(b[n]));
    }
  }

  /** The walk calls `fn` once per node, in pre-order. */
  lemma {:induction false} WalkIsPreOrder(node: Node, fn: Node -> seq<Issue>)
    ensures Walked(node, fn) == ConcatOf(PreOrder(node), fn)
    decreases node, |node.children| + 1
  {
    ChildrenInPreOrder(node, |node.children|, fn);
    ConcatAppend([node], ChildOrder(node, |node.children|), fn);
    assert ConcatOf([node], fn) == fn(node) by {
      assert [node][..0] == [];
    }
  }

  lemma {:induction false} ChildrenInPreOrder(node: Node, k: nat, fn: Node -> seq<Issue>)
    requires k <= |node.children|
    ensures WalkedChildren(node, k, fn) == ConcatOf(ChildOrder(node, k), fn)
    decreases node, k
  {
    if k > 0 {
      ChildrenInPreOrder(node, k - 1, fn);
      WalkIsPreOrder(node.children[k - 1], fn);
      ConcatAppend(ChildOrder(node, k - 1), PreOrder(node.children[k - 1]), fn);
    }
  }

  /** The issues of a tree are those of its nodes in pre-order, and a node's own issues come first. */
  lemma IssuesInPreOrder(node: Node, fin: real -> bool)
    ensures Issues(node, fin) == ConcatOf(PreOrder(node), NodeCheck(fin))
    ensures |NodeIssues(node, fin)| <= |Issues(node, fin)|
    ensures Issues(node, fin)[..|NodeIssues(node, fin)|] == NodeIssues(node, fin)
  {
    WalkIsPreOrder(node, NodeCheck(fin));
    assert NodeCheck(fin)(node) == NodeIssues(node, fin);
  }

  // ------------------------------------------------------- issue shapes

  /** Each issue is at the node's path, at the given level, with a message of the given sort. */
  predicate Shaped(issues: seq<Issue>, node: Node, level: Level, sort: Message -> bool) {
    forall i :: 0 <= i < |issues| ==> issues[i].path == node.path && issues[i].level == level && sort(issues[i].message)
  }

  lemma ShapedAppend(a: seq<Issue>, b: seq<Issue>, node: Node, level: Level, sort: Message -> bool)
    requires Shaped(a, node, level, sort) && Shaped(b, node, level, sort)
    ensures Shaped(a + b, node, level, sort)
  {
  }

  predicate AboutSize(m: Message) {
    m.InvalidDims? || m.WidthNotPositive? || m.DepthNotPositive? || m.HeightNotPositive?
  }

  predicate AboutField(m: Message) {
    m.NotFinite? && m.field in {"gap", "padding", "wall thickness", "basis", "grow", "shrink"}
  }

  predicate AboutOpenings(m: Message) {
    m.OffsetNegative? || m.ExceedsWall? || m.SillNegative? || m.ExceedsHeight?
  }

  predicate AboutOverflow(m: Message) {
    m.Overflow?
  }

  lemma DimShape(node: Node, fin: real -> bool)
    ensures Shaped(DimIssues(node, fin), node, Error, AboutSize)
  {
  }

  lemma FiniteShape(value: Option<real>, node: Node, field: string, fin: real -> bool)
    requires field in {"gap", "padding", "wall thickness", "basis", "grow", "shrink"}
    ensures Shaped(FiniteIssue(value, node, field, fin), node, Error, AboutField)
  {
  }

  lemma FieldShape(node: Node, fin: real -> bool)
    ensures Shaped(FieldIssues(node, fin), node, Error, AboutField)
    ensures |FieldIssues(node, fin)| <= 8
  {
    var st := node.style;
    var p1 := FiniteIssue(Some(st.gap), node, "gap", fin);
    var p2 := FiniteIssue(Some(st.padding.x), node, "padding", fin);
    var p3 := FiniteIssue(Some(st.padding.y), node, "padding", fin);
    var p4 := FiniteIssue(Some(st.padding.z), node, "padding", fin);
    var p5 := FiniteIssue(Some(st.t), node, "wall thickness", fin);
    var p6 := FiniteIssue(st.basis, node, "basis", fin);
    var p7 := FiniteIssue(st.grow, node, "grow", fin);
    var p8 := FiniteIssue(st.shrink, node, "shrink", fin);
    FiniteShape(Some(st.gap), node, "gap", fin);
    FiniteShape(Some(st.padding.x), node, "padding", fin);
    FiniteShape(Some(st.padding.y), node, "padding", fin);
    FiniteShape(Some(st.padding.z), node, "padding", fin);
    FiniteShape(Some(st.t), node, "wall thickness", fin);
    FiniteShape(st.basis, node, "basis", fin);
    FiniteShape(st.grow, node, "grow", fin);
    FiniteShape(st.shrink, node, "shrink", fin);
    ShapedAppend(p1, p2, node, Error, AboutField);
    ShapedAppend(p1 + p2, p3, node, Error, AboutField);
    ShapedAppend(p1 + p2 + p3, p4, node, Error, AboutField);
    ShapedAppend(p1 + p2 + p3 + p4, p5, node, Error, AboutField);
    ShapedAppend(p1 + p2 + p3 + p4 + p5, p6, node, Error, AboutField);
    ShapedAppend(p1 + p2 + p3 + p4 + p5 + p6, p7, node, Error, AboutField);
    ShapedAppend(p1 + p2 + p3 + p4 + p5 + p6 + p7, p8, node, Error, AboutField);
    assert |p1| <= 1 && |p2| <= 1 && |p3| <= 1 && |p4| <= 1 && |p5| <= 1 && |p6| <= 1 && |p7| <= 1 && |p8| <= 1;
  }

  lemma OpeningShape(o: Opening, size: Size3, node: Node)
    ensures Shaped(OpeningIssues(o, size, node), node, Error, AboutOpenings)
  {
  }

  lemma {:induction false} RoomShape(os: seq<Opening>, size: Size3, node: Node)
    ensures Shaped(OpeningsIssues(os, size, node), node, Error, AboutOpenings)
    decreases |os|
  {
    if os != [] {
      RoomShape(os[..|os| - 1], size, node);
      OpeningShape(os[|os| - 1], size, node);
      ShapedAppend(OpeningsIssues(os[..|os| - 1], size, node), OpeningIssues(os[|os| - 1], size, node), node, Error, AboutOpenings);
    }
  }

  lemma OverflowShape(node: Node)
    ensures Shaped(OverflowIssues(node), node, Warn, AboutOverflow)
  {
  }

  /** What every issue of a node satisfies, given the sorts of its four parts. */
  predicate WellSorted(x: Issue, node: Node) {
    x.path == node.path &&
    (x.level == Warn <==> AboutOverflow(x.message)) &&
    (AboutOpenings(x.message) ==> node.kind == Room) &&
    (AboutOverflow(x.message) ==> node.style.layout.Some?) &&
    (AboutSize(x.message) || AboutField(x.message) || AboutOpenings(x.message) || AboutOverflow(x.message))
  }

  lemma PartsSorted(ds: seq<Issue>, fs: seq<Issue>, rs: seq<Issue>, ws: seq<Issue>, node: Node)
    requires Shaped(ds, node, Error, AboutSize) && Shaped(fs, node, Error, AboutField)
    requires Shaped(rs, node, Error, AboutOpenings) && (node.kind != Room ==> rs == [])
    requires Shaped(ws, node, Warn, AboutOverflow) && (node.style.layout.None? ==> ws == [])
    ensures forall i :: 0 <= i < |ds + fs + rs + ws| ==> WellSorted((ds + fs + rs + ws)[i], node)
  {
    var all := ds + fs + rs + ws;
    forall i | 0 <= i < |all|
      ensures WellSorted(all[i], node)
    {
      if i < |ds| {
        assert all[i] == ds[i];
      } else if i < |ds| + |fs| {
        assert all[i] == fs[i - |ds|];
      } else if i < |ds| + |fs| + |rs| {
        assert all[i] == rs[i - |ds| - |fs|];
      } else {
        assert all[i] == ws[i - |ds| - |fs| - |rs|];
      }
    }
  }

  /**
   * Every issue of a node is at the node's path.  Size, field and opening
   * issues are errors, the overflow issue is the only warning, and opening
   * issues come only from a room, overflow only from a row or col.
   */
  lemma NodeIssueShapes(node: Node, fin: real -> bool)
    ensures forall i :: 0 <= i < |NodeIssues(node, fin)| ==> WellSorted(NodeIssues(node, fin)[i], node)
  {
    DimShape(node, fin);
    FieldShape(node, fin);
    RoomShape(node.style.openings, SizeRead(node), node);
    OverflowShape(node);
    PartsSorted(DimIssues(node, fin), FieldIssues(node, fin), if node.kind == Room then RoomIssues(node) else [],
                if node.style.layout.Some? then OverflowIssues(node) else [], node);
  }

  /** Every issue of a subtree is reported against the path of one of its nodes. */
  lemma IssuePaths(node: Node, fin: real -> bool)
    ensures forall i :: 0 <= i < |Issues(node, fin)| ==>
      exists j :: 0 <= j < |PreOrder(node)| && Issues(node, fin)[i].path == PreOrder(node)[j].path
  {
    IssuesInPreOrder(node, fin);
    forall n: Node
      ensures forall i :: 0 <= i < |NodeCheck(fin)(n)| ==> NodeCheck(fin)(n)[i].path == n.path
    {
      NodeIssueShapes(n, fin);
      assert NodeCheck(fin)(n) == NodeIssues(n, fin);
    }
    ConcatPaths(PreOrder(node), NodeCheck(fin));
  }

  lemma {:induction false} ConcatPaths(nodes: seq<Node>, fn: Node -> seq<Issue>)
    requires forall n: Node :: forall i :: 0 <= i < |fn(n)| ==> fn(n)[i].path == n.path
    ensures forall i :: 0 <= i < |ConcatOf(nodes, fn)| ==>
      exists j :: 0 <= j < |nodes| && ConcatOf(nodes, fn)[i].path == nodes[j].path
    decreases |nodes|
  {
    if nodes != [] {
      var n := |nodes| - 1;
      ConcatPaths(nodes[..n], fn);
      var c := ConcatOf(nodes, fn);
      var a := ConcatOf(nodes[..n], fn);
      forall i | 0 <= i < |c|
        ensures exists j :: 0 <= j < |nodes| && c[i].path == nodes[j].path
      {
        if i < |a| {
          var j :| 0 <= j < n && a[i].path == nodes[..n][j].path;
          assert c[i] == a[i];
          assert nodes[..n][j] == nodes[j];
        } else {
          assert c[i] == fn(nodes[n])[i - |a|];
          assert c[i].path == nodes[n].path;
        }
      }
      assert forall i :: 0 <= i < |c| ==> exists j :: 0 <= j < |nodes| && c[i].path == nodes[j].path;
    } else {
      assert ConcatOf(nodes, fn) == [];
    }
  }

  // ------------------------------------------------------------ the size

  /**
   * A missing or non-finite size gives exactly one error and no axis check;
   * otherwise there is one error per axis that is not positive, and no other.
   */
  lemma DimErrors(node: Node, fin: real -> bool)
    ensures DimsInvalid(node, fin) ==> DimIssues(node, fin) == [Raise(Error, node, InvalidDims)]
    ensures !DimsInvalid(node, fin) ==>
      var s, ds := node.measured.value, DimIssues(node, fin);
      (Raise(Error, node, WidthNotPositive) in ds <==> s.w <= 0.0) &&
      (Raise(Error, node, DepthNotPositive) in ds <==> s.d <= 0.0) &&
      (Raise(Error, node, HeightNotPositive) in ds <==> s.h <= 0.0) &&
      Raise(Error, node, InvalidDims) !in ds &&
      |ds| == (if s.w <= 0.0 then 1 else 0) + (if s.d <= 0.0 then 1 else 0) + (if s.h <= 0.0 then 1 else 0)
  {
  }

  // ------------------------------------------------------------ the fields

  /** `ensureFinite` reports at most once, and exactly for a value that is present and not finite. */
  lemma FiniteCheck(x: Issue, value: Option<real>, node: Node, field: string, fin: real -> bool)
    ensures |FiniteIssue(value, node, field, fin)| <= 1
    ensures x in FiniteIssue(value, node, field, fin) <==>
      value.Some? && !fin(value.value) && x == Raise(Error, node, NotFinite(field))
  {
  }

  /** The checks of the fields every style has report a field exactly when it is not finite. */
  lemma FieldErrors(node: Node, fin: real -> bool)
    ensures var st, fs := node.style, FieldIssues(node, fin);
      (Raise(Error, node, NotFinite("gap")) in fs <==> !fin(st.gap)) &&
      (Raise(Error, node, NotFinite("padding")) in fs <==>
         !fin(st.padding.x) || !fin(st.padding.y) || !fin(st.padding.z)) &&
      (Raise(Error, node, NotFinite("wall thickness")) in fs <==> !fin(st.t))
  {
    var st := node.style;
    forall f | f in {"gap", "padding", "wall thickness"}
      ensures Raise(Error, node, NotFinite(f)) in FieldIssues(node, fin) <==>
          (f == "gap" && !fin(st.gap)) ||
          (f == "padding" && (!fin(st.padding.x) || !fin(st.padding.y) || !fin(st.padding.z))) ||
          (f == "wall thickness" && !fin(st.t))
    {
      FieldMembers(Raise(Error, node, NotFinite(f)), node, fin);
    }
  }

  /** The checks of the optional fields skip a missing value and report a present one exactly when it is not finite. */
  lemma OptionalFieldErrors(node: Node, fin: real -> bool)
    ensures var st, fs := node.style, FieldIssues(node, fin);
      (Raise(Error, node, NotFinite("basis")) in fs <==> st.basis.Some? && !fin(st.basis.value)) &&
      (Raise(Error, node, NotFinite("grow")) in fs <==> st.grow.Some? && !fin(st.grow.value)) &&
      (Raise(Error, node, NotFinite("shrink")) in fs <==> st.shrink.Some? && !fin(st.shrink.value))
  {
    var st := node.style;
    forall f | f in {"basis", "grow", "shrink"}
      ensures Raise(Error, node, NotFinite(f)) in FieldIssues(node, fin) <==>
          (f == "basis" && st.basis.Some? && !fin(st.basis.value)) ||
          (f == "grow" && st.grow.Some? && !fin(st.grow.value)) ||
          (f == "shrink" && st.shrink.Some? && !fin(st.shrink.value))
    {
      FieldMembers(Raise(Error, node, NotFinite(f)), node, fin);
    }
  }

  /** An issue is among the field issues exactly when one of the eight checks reports it. */
  lemma FieldMembers(x: Issue, node: Node, fin: real -> bool)
    ensures var st := node.style;
      x in FieldIssues(node, fin) <==>
        x in FiniteIssue(Some(st.gap), node, "gap", fin) ||
        x in FiniteIssue(Some(st.padding.x), node, "padding", fin) ||
        x in FiniteIssue(Some(st.padding.y), node, "padding", fin) ||
        x in FiniteIssue(Some(st.padding.z), node, "padding", fin) ||
        x in FiniteIssue(Some(st.t), node, "wall thickness", fin) ||
        x in FiniteIssue(st.basis, node, "basis", fin) ||
        x in FiniteIssue(st.grow, node, "grow", fin) ||
        x in FiniteIssue(st.shrink, node, "shrink", fin)
  {
  }

  /** The issues of a node depend only on its path, kind, size, children and the checked style fields. */
  lemma SameChecks(n1: Node, n2: Node, fin: real -> bool)
    requires n1.path == n2.path && n1.kind == n2.kind && n1.measured == n2.measured && n1.children == n2.children
    requires var s1, s2 := n1.style, n2.style;
      s1.gap == s2.gap && s1.padding == s2.padding && s1.t == s2.t && s1.basis == s2.basis &&
      s1.grow == s2.grow && s1.shrink == s2.shrink && s1.layout == s2.layout && s1.openings == s2.openings
    ensures NodeIssues(n1, fin) == NodeIssues(n2, fin)
  {
    SameDims(n1, n2, fin);
    SameFields(n1, n2, fin);
    SamePath(n1.style.openings, SizeRead(n1), n1, n2);
    SameOverflow(n1, n2);
  }

  lemma SameDims(n1: Node, n2: Node, fin: real -> bool)
    requires n1.path == n2.path && n1.measured == n2.measured
    ensures DimIssues(n1, fin) == DimIssues(n2, fin)
  {
  }

  lemma SameFields(n1: Node, n2: Node, fin: real -> bool)
    requires n1.path == n2.path
    requires var s1, s2 := n1.style, n2.style;
      s1.gap == s2.gap && s1.padding == s2.padding && s1.t == s2.t && s1.basis == s2.basis &&
      s1.grow == s2.grow && s1.shrink == s2.shrink
    ensures FieldIssues(n1, fin) == FieldIssues(n2, fin)
  {
  }

  lemma SameOverflow(n1: Node, n2: Node)
    requires n1.path == n2.path && n1.measured == n2.measured && n1.children == n2.children
    requires n1.style.gap == n2.style.gap && n1.style.padding == n2.style.padding && n1.style.layout == n2.style.layout
    ensures OverflowIssues(n1) == OverflowIssues(n2)
  {
    assert NeededMain(n1) == NeededMain(n2);
    assert ContentMain(n1) == ContentMain(n2);
  }

  lemma {:induction false} SamePath(os: seq<Opening>, size: Size3, n1: Node, n2: Node)
    requires n1.path == n2.path
    ensures OpeningsIssues(os, size, n1) == OpeningsIssues(os, size, n2)
    decreases |os|
  {
    if os != [] {
      SamePath(os[..|os| - 1], size, n1, n2);
    }
  }

  /** The margin is never checked: changing it changes no issue of the node. */
  lemma MarginIgnored(node: Node, margin: Vec3, fin: real -> bool)
    ensures NodeIssues(node.(style := node.style.(margin := margin)), fin) == NodeIssues(node, fin)
  {
    SameChecks(node.(style := node.style.(margin := margin)), node, fin);
  }

  // ---------------------------------------------------------- the openings

  /** The four checks of an opening are independent: each reports exactly its own condition. */
  lemma OpeningErrors(o: Opening, size: Size3, node: Node)
    ensures var os := OpeningIssues(o, size, node);
      (Raise(Error, node, OffsetNegative) in os <==> o.offset < 0.0) &&
      (Raise(Error, node, ExceedsWall) in os <==> o.offset + o.w > WallLength(o, size)) &&
      (Raise(Error, node, SillNegative) in os <==> o.sill < 0.0) &&
      (Raise(Error, node, ExceedsHeight) in os <==> o.sill + o.h > size.h) &&
      |os| == (if o.offset < 0.0 then 1 else 0) + (if o.offset + o.w > WallLength(o, size) then 1 else 0) +
              (if o.sill < 0.0 then 1 else 0) + (if o.sill + o.h > size.h then 1 else 0)
  {
  }

  /** The wall of an opening is as long as the room is wide for N and S and as deep for E and W. */
  lemma WallLengths(o: Opening, size: Size3)
    ensures (o.wall == N || o.wall == S) ==> WallLength(o, size) == size.w
    ensures (o.wall == E || o.wall == W) ==> WallLength(o, size) == size.d
  {
  }

  // ---------------------------------------------------------- the overflow

  /**
   * A row or col with children warns once, with the amount, exactly when its
   * children's measured main sizes and gaps exceed the content length by more
   * than `Epsilon` and the children's shrink factors add up to 0.
   */
  lemma OverflowWarning(node: Node)
    ensures |OverflowIssues(node)| <= 1
    ensures |OverflowIssues(node)| == 1 <==>
      |node.children| > 0 && NeededMain(node) > ContentMain(node) + Epsilon && ShrinkTotal(node.children) == 0.0
    ensures |OverflowIssues(node)| == 1 ==>
      OverflowIssues(node)[0] == Raise(Warn, node, Overflow(NeededMain(node) - ContentMain(node)))
  {
  }

  /** Errors followed by at most one warning hold at most one warning, and it is the last part's. */
  lemma OneWarningAtEnd(front: seq<Issue>, ws: seq<Issue>)
    requires forall i :: 0 <= i < |front| ==> front[i].level == Error
    requires |ws| <= 1
    ensures forall i, j :: 0 <= i < j < |front + ws| ==> !((front + ws)[i].level == Warn && (front + ws)[j].level == Warn)
    ensures forall i :: 0 <= i < |front + ws| && (front + ws)[i].level == Warn ==> (front + ws)[i] in ws
  {
    var all := front + ws;
    forall i | 0 <= i < |all| && all[i].level == Warn
      ensures i == |front| && all[i] in ws
    {
      assert all[i] == ws[i - |front|];
    }
  }

  lemma FrontErrors(ds: seq<Issue>, fs: seq<Issue>, rs: seq<Issue>, node: Node)
    requires Shaped(ds, node, Error, AboutSize) && Shaped(fs, node, Error, AboutField)
    requires Shaped(rs, node, Error, AboutOpenings)
    ensures forall i :: 0 <= i < |ds + fs + rs| ==> (ds + fs + rs)[i].level == Error
  {
    var front := ds + fs + rs;
    forall i | 0 <= i < |front|
      ensures front[i].level == Error
    {
      if i < |ds| {
        assert front[i] == ds[i];
      } else if i < |ds| + |fs| {
        assert front[i] == fs[i - |ds|];
      } else {
        assert front[i] == rs[i - |ds| - |fs|];
      }
    }
  }

  /** A node has at most one warning, and only a row or col can have one: its overflow warning. */
  lemma AtMostOneWarning(node: Node, fin: real -> bool)
    ensures forall i, j :: 0 <= i < j < |NodeIssues(node, fin)| ==>
      !(NodeIssues(node, fin)[i].level == Warn && NodeIssues(node, fin)[j].level == Warn)
    ensures forall i :: 0 <= i < |NodeIssues(node, fin)| && NodeIssues(node, fin)[i].level == Warn ==>
      node.style.layout.Some? && NodeIssues(node, fin)[i] in OverflowIssues(node)
  {
    var ds, fs := DimIssues(node, fin), FieldIssues(node, fin);
    var rs := if node.kind == Room then RoomIssues(node) else [];
    var ws := if node.style.layout.Some? then OverflowIssues(node) else [];
    DimShape(node, fin);
    FieldShape(node, fin);
    RoomShape(node.style.openings, SizeRead(node), node);
    OverflowWarning(node);
    FrontErrors(ds, fs, rs, node);
    var front := ds + fs + rs;
    assert NodeIssues(node, fin) == front + ws;
    OneWarningAtEnd(front, ws);
  }

  /**
   * The overflow check reads measured sizes, not `basis`: a row 3 wide
   * without padding or gap whose two children measure 1 wide has no
   * overflow, whatever basis the children declare.
   */
  lemma MeasuredNotBasis(node: Node)
    requires node.style.layout == Some(Row) && node.style.gap == 0.0 && node.style.padding == Vec3(0.0, 0.0, 0.0)
    requires node.measured.Some? && node.measured.value.w == 3.0
    requires |node.children| == 2
    requires forall i :: 0 <= i < 2 ==> node.children[i].measured.Some? && node.children[i].measured.value.w == 1.0
    ensures OverflowIssues(node) == []
  {
    var c := node.children;
    assert c[..1][..0] == [];
    assert c[..2] == c;
    assert MeasuredMain(c[..1], true) == 1.0;
    assert MeasuredMain(c, true) == 2.0;
  }

  /** The same row with children that measure 2 wide and declare no shrink warns of an overflow of 1. */
  lemma OverflowExample(node: Node)
    requires node.style.layout == Some(Row) && node.style.gap == 0.0 && node.style.padding == Vec3(0.0, 0.0, 0.0)
    requires node.measured.Some? && node.measured.value.w == 3.0
    requires |node.children| == 2
    requires forall i :: 0 <= i < 2 ==>
      node.children[i].measured.Some? && node.children[i].measured.value.w == 2.0 && node.children[i].style.shrink.None?
    ensures OverflowIssues(node) == [Raise(Warn, node, Overflow(1.0))]
  {
    var c := node.children;
    assert c[..1][..0] == [];
    assert c[..2] == c;
    assert MeasuredMain(c[..1], true) == 2.0;
    assert MeasuredMain(c, true) == 4.0;
    assert ShrinkTotal(c[..1]) == 0.0;
    assert ShrinkTotal(c) == 0.0;
  }

  // -------------------------------------------------------- admissibility

  /** In a measured tree every `measured!` of the validator succeeds, so it never throws. */
  lemma {:induction false} MeasuredIsCheckable(node: Node)
    requires AllMeasured(node)
    ensures Checkable(node)
    decreases node
  {
    forall i | 0 <= i < |node.children|
      ensures Checkable(node.children[i])
    {
      MeasuredIsCheckable(node.children[i]);
    }
  }

  /** The measurer's output can always be validated. */
  lemma MeasuredTreeCheckable(root: Node)
    ensures Checkable(Measure.Measure(root))
  {
    EveryNodeMeasured(root);
    MeasuredIsCheckable(Measure.Measure(root));
  }
}
