/**
 * The flex layout (src/layout/layoutFlex.ts).
 *
 * Top-down placement of the measured tree.  A box takes the origin and the
 * size override its parent hands it (its measured size where no override is
 * given).  A stacking node places every child at its padding.  A row or col
 * node gives each child a provisional main size (`basis`, else its measured
 * size), hands out any positive leftover in proportion to `grow`, and places
 * the children one after another with a cursor; the cross axis keeps each
 * child's measured size.
 *
 * `LayoutOf` is the specification; `LayoutTree` is the source's recursion,
 * with the grow loop and the placement loop, proved equal to it.
 */
module Layout {
  import opened Base
  import opened Types

  /** A placed box (LayoutBox), relative to its parent's origin. */
  datatype Box = Box(id: string, kind: Kind, x: real, y: real, z: real, w: real, h: real, d: real, node: Node, children: seq<Box>)

  /** `Partial<{ w, d, h }>`: a size override, any part of which may be missing. */
  datatype Partial3 = Partial3(w: Option<real>, d: Option<real>, h: Option<real>)

  const NoOverride := Partial3(None, None, None)

  const Origin0 := Vec3(0.0, 0.0, 0.0)

  /** One entry of `childInfo`. */
  datatype Info = Info(child: Node, natural: Size3, main: real, cross: real, grow: real)

  // ------------------------------------------------------ admissibility

  /** `child.measured!` is read for every child of a row or col node with children. */
  predicate FlexReady(node: Node) {
    forall i :: 0 <= i < |node.children| ==> node.children[i].measured.Some?
  }

  /** No `measured!` in the whole tree is missing. */
  predicate Layable(node: Node)
    decreases node
  {
    (|node.children| > 0 && node.style.layout.Some? ==> FlexReady(node)) &&
    forall i :: 0 <= i < |node.children| ==> Layable(node.children[i])
  }

  // ------------------------------------------------------- child infos

  function InfoOf(child: Node, mainIsX: bool): Info
    requires child.measured.Some?
  {
    var n := child.measured.value;
    Info(child, n, child.style.basis.GetOr(if mainIsX then n.w else n.d), if mainIsX then n.d else n.w,
         child.style.grow.GetOr(0.0))
  }

  /** `node.children.map(...)`: the provisional infos, in child order. */
  function Infos(node: Node, mainIsX: bool): (r: seq<Info>)
    requires FlexReady(node)
    ensures |r| == |node.children|
  {
    seq(|node.children|, i requires 0 <= i < |node.children| => InfoOf(node.children[i], mainIsX))
  }

  /** The sum of the main sizes. */
  function SumMain(infos: seq<Info>): real
    decreases |infos|
  {
    if infos == [] then 0.0 else SumMain(infos[..|infos| - 1]) + infos[|infos| - 1].main
  }

  /** The sum of the grow factors. */
  function SumGrow(infos: seq<Info>): real
    decreases |infos|
  {
    if infos == [] then 0.0 else SumGrow(infos[..|infos| - 1]) + infos[|infos| - 1].grow
  }

  /** `gap * Math.max(0, n - 1)`. */
  function Gaps(gap: real, n: nat): real {
    gap * (if n >= 1 then (n - 1) as real else 0.0)
  }

  /** The grow loop done at once: each main gains its share of `leftover`. */
  function Grown(infos: seq<Info>, leftover: real, sumGrow: real): (r: seq<Info>)
    requires sumGrow > 0.0
    ensures |r| == |infos|
  {
    seq(|infos|, i requires 0 <= i < |infos| => Share(infos[i], leftover, sumGrow))
  }

  /** One info after the grow step: its main size gains its share of `leftover`. */
  function Share(info: Info, leftover: real, sumGrow: real): Info
    requires sumGrow > 0.0
  {
    info.(main := info.main + (leftover * info.grow) / sumGrow)
  }

  /** The infos after the grow step: grown only when there is room left and something grows. */
  function Distribute(infos: seq<Info>, mainSize: real, gap: real): (r: seq<Info>)
    ensures |r| == |infos|
  {
    var leftover := mainSize - (SumMain(infos) + Gaps(gap, |infos|));
    var sumGrow := SumGrow(infos);
    if leftover > 0.0 && sumGrow > 0.0 then Grown(infos, leftover, sumGrow) else infos
  }

  /** The cursor when child `i` is placed. */
  function Cursor(infos: seq<Info>, gap: real, i: nat): real
    requires i <= |infos|
  {
    if i == 0 then 0.0 else Cursor(infos, gap, i - 1) + infos[i - 1].main + gap
  }

  function ChildOrigin(pad: Vec3, mainIsX: bool, cursor: real): Vec3 {
    Vec3(pad.x + (if mainIsX then cursor else 0.0), pad.y, pad.z + (if mainIsX then 0.0 else cursor))
  }

  function ChildOverride(info: Info, mainIsX: bool): Partial3 {
    Partial3(Some(if mainIsX then info.main else info.cross), Some(if mainIsX then info.cross else info.main),
             Some(info.natural.h))
  }

  /** The content length on the main axis: the node's measured size less padding on both sides. */
  function MainSize(node: Node, mainIsX: bool): real {
    var m := node.measured.GetOr(Size3(0.0, 0.0, 0.0));
    if mainIsX then m.w - 2.0 * node.style.padding.x else m.d - 2.0 * node.style.padding.z
  }

  /** The final infos of a row or col node. */
  function FlexInfos(node: Node): (r: seq<Info>)
    requires FlexReady(node)
    ensures |r| == |node.children|
  {
    var mainIsX := node.style.layout == Some(Row);
    Distribute(Infos(node, mainIsX), MainSize(node, mainIsX), node.style.gap)
  }

  // ------------------------------------------------------------ boxes

  /** The box of `node` before its children are placed. */
  function Bare(node: Node, origin: Vec3, ov: Partial3): Box {
    var m := node.measured.GetOr(Size3(0.0, 0.0, 0.0));
    Box(if node.path != "" then node.path else node.name, node.kind, origin.x, origin.y, origin.z,
        ov.w.GetOr(m.w), ov.h.GetOr(m.h), ov.d.GetOr(m.d), node, [])
  }

  /** `layoutTree(node, origin, sizeOverride)`. */
  function LayoutOf(node: Node, origin: Vec3, ov: Partial3): Box
    requires Layable(node)
    decreases node, 1
  {
    var box := Bare(node, origin, ov);
    if |node.children| == 0 then box
    else if node.style.layout.None? then box.(children := StackBoxes(node))
    else box.(children := FlexBoxes(node))
  }

  /** The children of a stacking node: each at the node's padding, at its own size. */
  function StackBoxes(node: Node): (r: seq<Box>)
    requires Layable(node)
    ensures |r| == |node.children|
    decreases node, 0
  {
    seq(|node.children|, i requires 0 <= i < |node.children| => LayoutOf(node.children[i], node.style.padding, NoOverride))
  }

  /** The children of a row or col node: placed along the main axis by the cursor, sized by their final infos. */
  function FlexBoxes(node: Node): (r: seq<Box>)
    requires Layable(node) && |node.children| > 0 && node.style.layout.Some?
    ensures |r| == |node.children|
    decreases node, 0
  {
    var mainIsX := node.style.layout == Some(Row);
    var fs := FlexInfos(node);
    seq(|node.children|, i requires 0 <= i < |node.children| =>
        LayoutOf(node.children[i], ChildOrigin(node.style.padding, mainIsX, Cursor(fs, node.style.gap, i)),
                 ChildOverride(fs[i], mainIsX)))
  }

  /** The grow loop of `layoutTree`: `info.main += leftover * info.grow / sumGrow` for each info in turn. */
  method GrowMains(infos0: seq<Info>, leftover: real, sumGrow: real) returns (infos: seq<Info>)
    requires sumGrow > 0.0
    ensures infos == Grown(infos0, leftover, sumGrow)
  {
    infos := infos0;
    for i := 0 to |infos|
      invariant |infos| == |infos0|
      invariant forall k :: 0 <= k < i ==> infos[k] == Share(infos0[k], leftover, sumGrow)
      invariant forall k :: i <= k < |infos| ==> infos[k] == infos0[k]
    {
      infos := infos[i := infos[i].(main := infos[i].main + (leftover * infos[i].grow) / sumGrow)];
    }
    assert infos == Grown(infos0, leftover, sumGrow);
  }

  /** `layoutTree`, with the grow loop and the placement loop of the source. */
  method LayoutTree(node: Node, origin: Vec3, ov: Partial3) returns (box: Box)
    requires Layable(node)
    ensures box == LayoutOf(node, origin, ov)
    decreases node, 2
  {
    box := Bare(node, origin, ov);
    if |node.children| == 0 {
      return;
    }
    if node.style.layout.None? {
      var children := PlaceStacked(node);
      box := box.(children := children);
    } else {
      var children := PlaceFlex(node);
      box := box.(children := children);
    }
  }

  /** The stacking branch of `layoutTree`: every child at the padding. */
  method PlaceStacked(node: Node) returns (children: seq<Box>)
    requires Layable(node)
    ensures children == StackBoxes(node)
    decreases node, 1
  {
    ghost var want := StackBoxes(node);
    children := [];
    for i := 0 to |node.children|
      invariant children == want[..i]
    {
      var childBox := LayoutTree(node.children[i], node.style.padding, NoOverride);
      PrefixSnoc(want, i);
      children := children + [childBox];
    }
    assert want[..|node.children|] == want;
  }

  /** The row and col branch of `layoutTree`: the final infos, then the placement loop. */
  method PlaceFlex(node: Node) returns (children: seq<Box>)
    requires Layable(node) && |node.children| > 0 && node.style.layout.Some?
    ensures children == FlexBoxes(node)
    decreases node, 1
  {
    var infos := FinalInfos(node);
    children := PlaceAlong(node, infos);
  }

  /** The infos of a row or col node and the grow loop over them. */
  method FinalInfos(node: Node) returns (infos: seq<Info>)
    requires FlexReady(node)
    ensures infos == FlexInfos(node)
  {
    var gap := node.style.gap;
    var mainIsX := node.style.layout == Some(Row);
    var mainSize := MainSize(node, mainIsX);
    infos := Infos(node, mainIsX);
    var totalMain := SumMain(infos) + Gaps(gap, |infos|);
    var leftover := mainSize - totalMain;
    var sumGrow := SumGrow(infos);
    if leftover > 0.0 && sumGrow > 0.0 {
      infos := GrowMains(infos, leftover, sumGrow);
    }
  }

  /** The placement loop: each child at the cursor, which then advances by its main size and the gap. */
  method PlaceAlong(node: Node, infos: seq<Info>) returns (children: seq<Box>)
    requires Layable(node) && |node.children| > 0 && node.style.layout.Some?
    requires infos == FlexInfos(node)
    ensures children == FlexBoxes(node)
    decreases node, 0
  {
    ghost var want := FlexBoxes(node);
    var gap := node.style.gap;
    var mainIsX := node.style.layout == Some(Row);
    var cursor := 0.0;
    children := [];
    for i := 0 to |infos|
      invariant children == want[..i]
      invariant cursor == Cursor(infos, gap, i)
    {
      var childOrigin := ChildOrigin(node.style.padding, mainIsX, cursor);
      var childBox := LayoutTree(node.children[i], childOrigin, ChildOverride(infos[i], mainIsX));
      PrefixSnoc(want, i);
      children := children + [childBox];
      cursor := cursor + infos[i].main + gap;
    }
    assert want[..|node.children|] == want;
  }
}
