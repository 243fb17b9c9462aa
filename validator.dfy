/**
 * The validator (src/hsml/validate.ts).
 *
 * A pre-order walk over the measured tree that appends issues to one shared
 * list: per node, the measured size, the finiteness of the numeric style
 * fields, the openings of a room and the overflow of a row or col.  The
 * validator never rejects its input; it only reports.
 *
 * The source's numbers are IEEE doubles; the model's are reals, and the
 * parameter `fin` says which of them stand for finite numbers (`isFinite`).
 *
 * `Issues` is the specification: the issues of a node, then those of each of
 * its children, in order.  `IssueList` is the shared array with its push, and
 * its methods are the source's procedures, each proved to append exactly
 * the issues the specification gives for it.
 */
module Validator {
  import opened Base
  import opened Types

  // ----------------------------------------------------- specification

  /** `issue(level, path, message)`. */
  function Raise(level: Level, node: Node, m: Message): Issue {
    Issue(level, node.path, m)
  }

  /** A missing size, or one with a non-finite axis. */
  predicate DimsInvalid(node: Node, fin: real -> bool) {
    node.measured.None? || !fin(node.measured.value.w) || !fin(node.measured.value.d) || !fin(node.measured.value.h)
  }

  /** The size checks: one error for an invalid size, otherwise one per axis that is not positive. */
  function DimIssues(node: Node, fin: real -> bool): seq<Issue> {
    if DimsInvalid(node, fin) then [Raise(Error, node, InvalidDims)]
    else
      var s := node.measured.value;
      (if s.w <= 0.0 then [Raise(Error, node, WidthNotPositive)] else []) +
      (if s.d <= 0.0 then [Raise(Error, node, DepthNotPositive)] else []) +
      (if s.h <= 0.0 then [Raise(Error, node, HeightNotPositive)] else [])
  }

  /** `ensureFinite(value, node, issues, field)`: nothing for an absent value. */
  function FiniteIssue(value: Option<real>, node: Node, field: string, fin: real -> bool): seq<Issue> {
    if value.Some? && !fin(value.value) then [Raise(Error, node, NotFinite(field))] else []
  }

  /** The finiteness checks, in the source's order; the margin is not among them. */
  function FieldIssues(node: Node, fin: real -> bool): seq<Issue> {
    var st := node.style;
    FiniteIssue(Some(st.gap), node, "gap", fin) +
    FiniteIssue(Some(st.padding.x), node, "padding", fin) +
    FiniteIssue(Some(st.padding.y), node, "padding", fin) +
    FiniteIssue(Some(st.padding.z), node, "padding", fin) +
    FiniteIssue(Some(st.t), node, "wall thickness", fin) +
    FiniteIssue(st.basis, node, "basis", fin) +
    FiniteIssue(st.grow, node, "grow", fin) +
    FiniteIssue(st.shrink, node, "shrink", fin)
  }

  /** The length of the wall an opening sits in: the width for N and S, the depth for E and W. */
  function WallLength(o: Opening, size: Size3): real {
    if o.wall == N || o.wall == S then size.w else size.d
  }

  /** The four independent checks of one opening. */
  function OpeningIssues(o: Opening, size: Size3, node: Node): seq<Issue> {
    (if o.offset < 0.0 then [Raise(Error, node, OffsetNegative)] else []) +
    (if o.offset + o.w > WallLength(o, size) then [Raise(Error, node, ExceedsWall)] else []) +
    (if o.sill < 0.0 then [Raise(Error, node, SillNegative)] else []) +
    (if o.sill + o.h > size.h then [Raise(Error, node, ExceedsHeight)] else [])
  }

  /** The checks of the openings, one after another. */
  function OpeningsIssues(os: seq<Opening>, size: Size3, node: Node): seq<Issue>
    decreases |os|
  {
    if os == [] then [] else OpeningsIssues(os[..|os| - 1], size, node) + OpeningIssues(os[|os| - 1], size, node)
  }

  /** The measured size a check reads with `node.measured!`. */
  function SizeRead(node: Node): Size3 {
    node.measured.GetOr(Size3(0.0, 0.0, 0.0))
  }

  /** `validateOpenings`. */
  function RoomIssues(node: Node): seq<Issue> {
    OpeningsIssues(node.style.openings, SizeRead(node), node)
  }

  /** The sum of the children's measured main sizes (the first `reduce`). */
  function MeasuredMain(children: seq<Node>, mainIsX: bool): real
    decreases |children|
  {
    if children == [] then 0.0
    else
      var s := SizeRead(children[|children| - 1]);
      MeasuredMain(children[..|children| - 1], mainIsX) + (if mainIsX then s.w else s.d)
  }

  /** The sum of the children's shrink factors, absent ones as 0 (the last `reduce`). */
  function ShrinkTotal(children: seq<Node>): real
    decreases |children|
  {
    if children == [] then 0.0 else ShrinkTotal(children[..|children| - 1]) + children[|children| - 1].style.shrink.GetOr(0.0)
  }

  /** The content length on the main axis: the measured size less padding on both sides. */
  function ContentMain(node: Node): real {
    var s := SizeRead(node);
    if node.style.layout == Some(Row) then s.w - 2.0 * node.style.padding.x else s.d - 2.0 * node.style.padding.z
  }

  /** What the children need on the main axis: their measured main sizes and the gaps between them. */
  function NeededMain(node: Node): real {
    var n := |node.children|;
    MeasuredMain(node.children, node.style.layout == Some(Row)) +
    node.style.gap * (if n >= 1 then (n - 1) as real else 0.0)
  }

  const Epsilon: real := 0.000001

  /** `validateOverflow`: a warning when the children overflow by more than `Epsilon` and nothing may shrink. */
  function OverflowIssues(node: Node): seq<Issue> {
    if |node.children| == 0 then []
    else if NeededMain(node) > ContentMain(node) + Epsilon && ShrinkTotal(node.children) == 0.0 then
      [Raise(Warn, node, Overflow(NeededMain(node) - ContentMain(node)))]
    else []
  }

  /** `validateNode`: every issue of one node, in the source's order. */
  function NodeIssues(node: Node, fin: real -> bool): seq<Issue> {
    DimIssues(node, fin) + FieldIssues(node, fin) +
    (if node.kind == Room then RoomIssues(node) else []) +
    (if node.style.layout.Some? then OverflowIssues(node) else [])
  }

  /** `validateNode` as the callback of the walk: what it appends for a node. */
  function NodeCheck(fin: real -> bool): Node -> seq<Issue> {
    n => NodeIssues(n, fin)
  }

  /** `walk(node, fn)`, with `fn` given by what it appends for each node: the node, then each child's subtree in turn. */
  function Walked(node: Node, fn: Node -> seq<Issue>): seq<Issue>
    decreases node, |node.children| + 1
  {
    fn(node) + WalkedChildren(node, |node.children|, fn)
  }

  /** What the walk appends for the subtrees of the first `k` children of `node`. */
  function WalkedChildren(node: Node, k: nat, fn: Node -> seq<Issue>): seq<Issue>
    requires k <= |node.children|
    decreases node, k
  {
    if k == 0 then [] else WalkedChildren(node, k - 1, fn) + Walked(node.children[k - 1], fn)
  }

  /** `validateHSML`: the issues of a whole tree. */
  function Issues(node: Node, fin: real -> bool): seq<Issue> {
    Walked(node, NodeCheck(fin))
  }

  // ---------------------------------------------------------- admissibility

  /** The reads of `node.measured!` that the source makes succeed: the openings of a room and a row's or col's sizes. */
  predicate NodeCheckable(node: Node) {
    (node.kind == Room && |node.style.openings| > 0 ==> node.measured.Some?) &&
    (node.style.layout.Some? ==>
       node.measured.Some? && forall i :: 0 <= i < |node.children| ==> node.children[i].measured.Some?)
  }

  /** Every node of the tree is checkable. */
  predicate Checkable(node: Node)
    decreases node
  {
    NodeCheckable(node) && forall i :: 0 <= i < |node.children| ==> Checkable(node.children[i])
  }

  // ------------------------------------------------------ the shared list

  /** The `issues` array that every check pushes to. */
  class IssueList {
    var issues: seq<Issue>

    constructor ()
      ensures issues == []
    {
      issues := [];
    }

    /** `issues.push(i)`. */
    method Push(i: Issue)
      modifies this
      ensures issues == old(issues) + [i]
    {
      issues := issues + [i];
    }

    method EnsureFinite(value: Option<real>, node: Node, field: string, fin: real -> bool)
      modifies this
      ensures issues == old(issues) + FiniteIssue(value, node, field, fin)
    {
      if value.None? {
        return;
      }
      if !fin(value.value) {
        Push(Raise(Error, node, NotFinite(field)));
      }
    }

    /** `validateOpenings`: the four checks of each opening in turn. */
    method ValidateOpenings(node: Node)
      requires |node.style.openings| > 0 ==> node.measured.Some?
      modifies this
      ensures issues == old(issues) + RoomIssues(node)
    {
      var os := node.style.openings;
      ghost var start := issues;
      for i := 0 to |os|
        invariant issues == start + OpeningsIssues(os[..i], SizeRead(node), node)
      {
        ghost var before := issues;
        CheckOpening(os[i], node.measured.value, node);
        assert os[..i + 1][..i] == os[..i];
        AppendAssoc(start, OpeningsIssues(os[..i], SizeRead(node), node), OpeningIssues(os[i], SizeRead(node), node));
      }
      assert os[..|os|] == os;
    }

    /** The body of the loop in `validateOpenings`: one opening against the room's size. */
    method CheckOpening(o: Opening, size: Size3, node: Node)
      modifies this
      ensures issues == old(issues) + OpeningIssues(o, size, node)
    {
      var wallLength := if o.wall == N || o.wall == S then size.w else size.d;
      ghost var start := issues;
      ghost var p1 := if o.offset < 0.0 then [Raise(Error, node, OffsetNegative)] else [];
      ghost var p2 := if o.offset + o.w > wallLength then [Raise(Error, node, ExceedsWall)] else [];
      ghost var p3 := if o.sill < 0.0 then [Raise(Error, node, SillNegative)] else [];
      ghost var p4 := if o.sill + o.h > size.h then [Raise(Error, node, ExceedsHeight)] else [];
      if o.offset < 0.0 {
        Push(Raise(Error, node, OffsetNegative));
      }
      assert issues == start + p1;
      if o.offset + o.w > wallLength {
        Push(Raise(Error, node, ExceedsWall));
      }
      assert issues == start + p1 + p2;
      AppendAssoc(start, p1, p2);
      if o.sill < 0.0 {
        Push(Raise(Error, node, SillNegative));
      }
      assert issues == start + (p1 + p2) + p3;
      AppendAssoc(start, p1 + p2, p3);
      if o.sill + o.h > size.h {
        Push(Raise(Error, node, ExceedsHeight));
      }
      assert issues == start + (p1 + p2 + p3) + p4;
      AppendAssoc(start, p1 + p2 + p3, p4);
      assert OpeningIssues(o, size, node) == p1 + p2 + p3 + p4;
    }

    /** `validateOverflow`. */
    method ValidateOverflow(node: Node)
      requires NodeCheckable(node) && node.style.layout.Some?
      modifies this
      ensures issues == old(issues) + OverflowIssues(node)
    {
      var size := node.measured.value;
      var mainIsX := node.style.layout == Some(Row);
      var gap := node.style.gap;
      var contentMain := if mainIsX then size.w - 2.0 * node.style.padding.x else size.d - 2.0 * node.style.padding.z;
      assert contentMain == ContentMain(node);
      var children := node.children;
      if |children| == 0 {
        return;
      }
      var sumMain := MeasuredMain(children, mainIsX) + gap * (|children| - 1) as real;
      assert sumMain == NeededMain(node);
      if sumMain > contentMain + Epsilon {
        var overflow := sumMain - contentMain;
        var shrinkTotal := ShrinkTotal(children);
        if shrinkTotal == 0.0 {
          Push(Raise(Warn, node, Overflow(overflow)));
        }
      }
    }

    /** The size checks at the head of `validateNode`. */
    method CheckDims(node: Node, fin: real -> bool)
      modifies this
      ensures issues == old(issues) + DimIssues(node, fin)
    {
      var size := node.measured;
      if size.None? || !fin(size.value.w) || !fin(size.value.d) || !fin(size.value.h) {
        Push(Raise(Error, node, InvalidDims));
      } else {
        ghost var start := issues;
        if size.value.w <= 0.0 {
          Push(Raise(Error, node, WidthNotPositive));
        }
        if size.value.d <= 0.0 {
          Push(Raise(Error, node, DepthNotPositive));
        }
        if size.value.h <= 0.0 {
          Push(Raise(Error, node, HeightNotPositive));
        }
      }
    }

    /** The eight `ensureFinite` calls of `validateNode`. */
    method CheckFields(node: Node, fin: real -> bool)
      modifies this
      ensures issues == old(issues) + FieldIssues(node, fin)
    {
      var st := node.style;
      ghost var o := issues;
      EnsureFinite(Some(st.gap), node, "gap", fin);
      ghost var acc := FiniteIssue(Some(st.gap), node, "gap", fin);
      EnsureFinite(Some(st.padding.x), node, "padding", fin);
      AppendAssoc(o, acc, FiniteIssue(Some(st.padding.x), node, "padding", fin));
      acc := acc + FiniteIssue(Some(st.padding.x), node, "padding", fin);
      EnsureFinite(Some(st.padding.y), node, "padding", fin);
      AppendAssoc(o, acc, FiniteIssue(Some(st.padding.y), node, "padding", fin));
      acc := acc + FiniteIssue(Some(st.padding.y), node, "padding", fin);
      EnsureFinite(Some(st.padding.z), node, "padding", fin);
      AppendAssoc(o, acc, FiniteIssue(Some(st.padding.z), node, "padding", fin));
      acc := acc + FiniteIssue(Some(st.padding.z), node, "padding", fin);
      EnsureFinite(Some(st.t), node, "wall thickness", fin);
      AppendAssoc(o, acc, FiniteIssue(Some(st.t), node, "wall thickness", fin));
      acc := acc + FiniteIssue(Some(st.t), node, "wall thickness", fin);
      EnsureFinite(st.basis, node, "basis", fin);
      AppendAssoc(o, acc, FiniteIssue(st.basis, node, "basis", fin));
      acc := acc + FiniteIssue(st.basis, node, "basis", fin);
      EnsureFinite(st.grow, node, "grow", fin);
      AppendAssoc(o, acc, FiniteIssue(st.grow, node, "grow", fin));
      acc := acc + FiniteIssue(st.grow, node, "grow", fin);
      EnsureFinite(st.shrink, node, "shrink", fin);
      AppendAssoc(o, acc, FiniteIssue(st.shrink, node, "shrink", fin));
      acc := acc + FiniteIssue(st.shrink, node, "shrink", fin);
      assert acc == FieldIssues(node, fin);
    }

    /** `validateNode`: the size, the fields, the openings of a room, the overflow of a row or col. */
    method ValidateNode(node: Node, fin: real -> bool)
      requires NodeCheckable(node)
      modifies this
      ensures issues == old(issues) + NodeIssues(node, fin)
    {
      ghost var o := issues;
      CheckDims(node, fin);
      CheckFields(node, fin);
      ghost var acc := DimIssues(node, fin);
      AppendAssoc(o, acc, FieldIssues(node, fin));
      acc := acc + FieldIssues(node, fin);
      ghost var room := if node.kind == Room then RoomIssues(node) else [];
      ghost var before := issues;
      if node.kind == Room {
        ValidateOpenings(node);
      }
      assert issues == before + room;
      AppendAssoc(o, acc, room);
      acc := acc + room;
      ghost var flow := if node.style.layout.Some? then OverflowIssues(node) else [];
      before := issues;
      if node.style.layout.Some? {
        ValidateOverflow(node);
      }
      assert issues == before + flow;
      AppendAssoc(o, acc, flow);
    }

    /** `walk(node, validateNode)`: the node, then each child's subtree in turn. */
    method Walk(node: Node, fin: real -> bool)
      requires Checkable(node)
      modifies this
      ensures issues == old(issues) + Walked(node, NodeCheck(fin))
      decreases node, 1
    {
      ghost var o := issues;
      ValidateNode(node, fin);
      assert NodeCheck(fin)(node) == NodeIssues(node, fin);
      ghost var mid := issues;
      WalkChildren(node, fin);
      AppendAssoc(o, NodeCheck(fin)(node), WalkedChildren(node, |node.children|, NodeCheck(fin)));
    }

    /** The loop of `walk` over the children of `node`. */
    method WalkChildren(node: Node, fin: real -> bool)
      requires Checkable(node)
      modifies this
      ensures issues == old(issues) + WalkedChildren(node, |node.children|, NodeCheck(fin))
      decreases node, 0
    {
      ghost var start := issues;
      for i := 0 to |node.children|
        invariant issues == start + WalkedChildren(node, i, NodeCheck(fin))
      {
        ghost var before := WalkedChildren(node, i, NodeCheck(fin));
        assert WalkedChildren(node, i + 1, NodeCheck(fin)) == before + Walked(node.children[i], NodeCheck(fin));
        assert Checkable(node.children[i]);
        Walk(node.children[i], fin);
        AppendAssoc(start, before, Walked(node.children[i], NodeCheck(fin)));
      }
    }
  }

  /** `validateHSML(root)`: the issues of the whole tree, parent before children. */
  method ValidateHSML(root: Node, fin: real -> bool) returns (issues: seq<Issue>)
    requires Checkable(root)
    ensures issues == Issues(root, fin)
  {
    var list := new IssueList();
    list.Walk(root, fin);
    issues := list.issues;
  }
}
