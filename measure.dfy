/**
 * The measurer (src/hsml/measure.ts).
 *
 * `SizeOf` is the value `measureNodeRecursive` returns: a leaf takes each
 * axis from its explicit value or 1; a row or col container sums its
 * children along the main axis and takes the maximum across; a stacking
 * container takes the maximum on every axis; padding is added on both
 * sides, and an explicit dimension always wins.  The source also writes
 * each size into `node.measured`; `Measure` is the tree with those writes
 * done.
 */
module Measure {
  import opened Base
  import opened Types

  // --------------------------------------------------------- reductions

  /** The three axes: x carries `w`, z carries `d` and y carries `h`. */
  datatype Axis = X | Y | Z

  function Along(s: Size3, a: Axis): real {
    match a
    case X => s.w
    case Y => s.h
    case Z => s.d
  }

  /** `sizes.reduce((sum, s) => sum + s[a], 0)`. */
  function Sum(sizes: seq<Size3>, a: Axis): real
    decreases |sizes|
  {
    if sizes == [] then 0.0 else Sum(sizes[..|sizes| - 1], a) + Along(sizes[|sizes| - 1], a)
  }

  function Max2(x: real, y: real): real {
    if x >= y then x else y
  }

  /** `sizes.reduce((max, s) => Math.max(max, s[a]), 0)`. */
  function Max(sizes: seq<Size3>, a: Axis): real
    decreases |sizes|
  {
    if sizes == [] then 0.0 else Max2(Max(sizes[..|sizes| - 1], a), Along(sizes[|sizes| - 1], a))
  }

  /** The maximum starts at 0 and bounds every size on its axis. */
  lemma {:induction false} MaxBounds(sizes: seq<Size3>, a: Axis)
    ensures Max(sizes, a) >= 0.0
    ensures forall i :: 0 <= i < |sizes| ==> Max(sizes, a) >= Along(sizes[i], a)
    decreases |sizes|
  {
    if sizes != [] {
      MaxBounds(sizes[..|sizes| - 1], a);
    }
  }

  /** The maximum is 0 or the size of some element: it is the least bound that is at least 0. */
  lemma {:induction false} MaxAttained(sizes: seq<Size3>, a: Axis)
    ensures Max(sizes, a) == 0.0 || exists i :: 0 <= i < |sizes| && Max(sizes, a) == Along(sizes[i], a)
    decreases |sizes|
  {
    if sizes != [] {
      var init := sizes[..|sizes| - 1];
      MaxAttained(init, a);
      if Max(sizes, a) != Along(sizes[|sizes| - 1], a) && Max(init, a) != 0.0 {
        var i :| 0 <= i < |init| && Max(init, a) == Along(init[i], a);
        assert sizes[i] == init[i];
      }
    }
  }

  /** With sizes that are not negative the sum is not negative and bounds each of them. */
  lemma {:induction false} SumBounds(sizes: seq<Size3>, a: Axis)
    requires forall i :: 0 <= i < |sizes| ==> Along(sizes[i], a) >= 0.0
    ensures Sum(sizes, a) >= 0.0
    ensures forall i :: 0 <= i < |sizes| ==> Sum(sizes, a) >= Along(sizes[i], a)
    decreases |sizes|
  {
    if sizes != [] {
      SumBounds(sizes[..|sizes| - 1], a);
    }
  }

  // ------------------------------------------------------------ sizes

  /** `asNumber`: an explicit dimension. */
  function Explicit(d: Dim): Option<real> {
    if d.Fixed? then Some(d.value) else None
  }

  /** The size of a node from the sizes of its children, in order. */
  function SizeFrom(node: Node, sizes: seq<Size3>): Size3 {
    var w, d, h := Explicit(node.style.w), Explicit(node.style.d), Explicit(node.style.h);
    var pad := node.style.padding;
    if |node.children| == 0 then
      Size3(w.GetOr(1.0), d.GetOr(1.0), h.GetOr(1.0))
    else if node.style.layout.Some? then
      var mainIsX := node.style.layout == Some(Row);
      var sumMain := Sum(sizes, if mainIsX then X else Z);
      var maxCross := Max(sizes, if mainIsX then Z else X);
      var gaps := node.style.gap * (if |sizes| >= 1 then (|sizes| - 1) as real else 0.0);
      Size3(w.GetOr(if mainIsX then sumMain + gaps + 2.0 * pad.x else maxCross + 2.0 * pad.x),
            d.GetOr(if mainIsX then maxCross + 2.0 * pad.z else sumMain + gaps + 2.0 * pad.z),
            h.GetOr(Max(sizes, Y) + 2.0 * pad.y))
    else
      Size3(w.GetOr(Max(sizes, X) + 2.0 * pad.x),
            d.GetOr(Max(sizes, Z) + 2.0 * pad.z),
            h.GetOr(Max(sizes, Y) + 2.0 * pad.y))
  }

  /** `measureNodeRecursive(node)`: the size, computed bottom-up. */
  function SizeOf(node: Node): Size3
    decreases node
  {
    SizeFrom(node, seq(|node.children|, i requires 0 <= i < |node.children| => SizeOf(node.children[i])))
  }

  /** The sizes of the children of `node`, in order. */
  function ChildSizes(node: Node): (r: seq<Size3>)
    ensures |r| == |node.children|
    ensures forall i :: 0 <= i < |r| ==> r[i] == SizeOf(node.children[i])
  {
    seq(|node.children|, i requires 0 <= i < |node.children| => SizeOf(node.children[i]))
  }

  /** The tree after `measureTree`: every node's `measured` holds its size. */
  function Measure(node: Node): Node
    decreases node
  {
    node.(children := seq(|node.children|, i requires 0 <= i < |node.children| => Measure(node.children[i])),
          measured := Some(SizeOf(node)))
  }

  /** `measureTree(root)`: the root's size. */
  function MeasureTree(root: Node): (r: Size3)
    ensures Measure(root).measured == Some(r)
  {
    SizeOf(root)
  }

  // ------------------------------------------------------- properties

  /** Every node of a tree has a measured size. */
  predicate AllMeasured(node: Node)
    decreases node
  {
    node.measured.Some? && forall i :: 0 <= i < |node.children| ==> AllMeasured(node.children[i])
  }

  /** Measuring writes only `measured`: everything else and the children's order and number stay. */
  lemma MeasureShape(node: Node)
    ensures var r := Measure(node);
      r.name == node.name && r.path == node.path && r.content == node.content && r.style == node.style &&
      r.kind == node.kind && |r.children| == |node.children| &&
      (forall i :: 0 <= i < |node.children| ==> r.children[i] == Measure(node.children[i])) &&
      r.measured == Some(SizeFrom(node, ChildSizes(node)))
  {
    assert SizeOf(node) == SizeFrom(node, ChildSizes(node));
  }

  /** Every node is measured, and each parent's size is computed from its children's measured sizes. */
  lemma {:induction false} EveryNodeMeasured(node: Node)
    ensures AllMeasured(Measure(node))
    ensures forall i :: 0 <= i < |node.children| ==> Measure(node).children[i].measured == Some(ChildSizes(node)[i])
    decreases node
  {
    var r := Measure(node);
    forall i | 0 <= i < |node.children|
      ensures AllMeasured(r.children[i])
    {
      EveryNodeMeasured(node.children[i]);
    }
  }

  /** A leaf takes each axis from its explicit value, else 1. */
  lemma LeafSize(node: Node)
    requires |node.children| == 0
    ensures SizeOf(node) == Size3(Explicit(node.style.w).GetOr(1.0), Explicit(node.style.d).GetOr(1.0),
                                  Explicit(node.style.h).GetOr(1.0))
  {
  }

  /** An explicit dimension is the measured value on that axis, whatever the kind and the layout. */
  lemma ExplicitKept(node: Node)
    ensures node.style.w.Fixed? ==> SizeOf(node).w == node.style.w.value
    ensures node.style.d.Fixed? ==> SizeOf(node).d == node.style.d.value
    ensures node.style.h.Fixed? ==> SizeOf(node).h == node.style.h.value
  {
    assert SizeOf(node) == SizeFrom(node, ChildSizes(node));
  }

  /** `gap * Math.max(0, n - 1)` for a node with children. */
  lemma GapsOf(node: Node)
    requires |node.children| > 0
    ensures node.style.gap * (if |ChildSizes(node)| >= 1 then (|ChildSizes(node)| - 1) as real else 0.0) ==
            node.style.gap * (|node.children| - 1) as real
  {
  }

  /** A row sums the widths plus the gaps and takes the deepest child, padding added on both sides. */
  lemma RowSize(node: Node)
    requires |node.children| > 0 && node.style.layout == Some(Row)
    ensures var s, cs, p := SizeOf(node), ChildSizes(node), node.style.padding;
      (node.style.w == Auto ==> s.w == Sum(cs, X) + node.style.gap * (|node.children| - 1) as real + 2.0 * p.x) &&
      (node.style.d == Auto ==> s.d == Max(cs, Z) + 2.0 * p.z)
  {
    assert SizeOf(node) == SizeFrom(node, ChildSizes(node));
    GapsOf(node);
  }

  /** A col is a row with width and depth swapped. */
  lemma ColSize(node: Node)
    requires |node.children| > 0 && node.style.layout == Some(Col)
    ensures var s, cs, p := SizeOf(node), ChildSizes(node), node.style.padding;
      (node.style.d == Auto ==> s.d == Sum(cs, Z) + node.style.gap * (|node.children| - 1) as real + 2.0 * p.z) &&
      (node.style.w == Auto ==> s.w == Max(cs, X) + 2.0 * p.x)
  {
    assert SizeOf(node) == SizeFrom(node, ChildSizes(node));
    GapsOf(node);
  }

  /** A stacking container ignores the gap: each auto axis is its tallest child on that axis plus padding on both sides. */
  lemma StackSize(node: Node)
    requires |node.children| > 0 && node.style.layout.None?
    ensures var s, cs, p := SizeOf(node), ChildSizes(node), node.style.padding;
      (node.style.w == Auto ==> s.w == Max(cs, X) + 2.0 * p.x) &&
      (node.style.d == Auto ==> s.d == Max(cs, Z) + 2.0 * p.z) &&
      (node.style.h == Auto ==> s.h == Max(cs, Y) + 2.0 * p.y)
  {
    assert SizeOf(node) == SizeFrom(node, ChildSizes(node));
  }

  /** The height rule does not depend on the layout: an auto height is the tallest child plus vertical padding. */
  lemma AutoHeight(node: Node)
    requires |node.children| > 0 && node.style.h == Auto
    ensures SizeOf(node).h == Max(ChildSizes(node), Y) + 2.0 * node.style.padding.y
  {
    assert SizeOf(node) == SizeFrom(node, ChildSizes(node));
  }

  /** An auto stack axis is at least twice the padding and at least every child's size plus that padding. */
  lemma StackBounds(node: Node, i: nat)
    requires |node.children| > 0 && node.style.layout.None? && i < |node.children|
    ensures var s, c, p := SizeOf(node), SizeOf(node.children[i]), node.style.padding;
      (node.style.w == Auto ==> s.w >= 2.0 * p.x && s.w >= c.w + 2.0 * p.x) &&
      (node.style.d == Auto ==> s.d >= 2.0 * p.z && s.d >= c.d + 2.0 * p.z) &&
      (node.style.h == Auto ==> s.h >= 2.0 * p.y && s.h >= c.h + 2.0 * p.y)
  {
    var cs := ChildSizes(node);
    StackSize(node);
    MaxBounds(cs, X);
    MaxBounds(cs, Y);
    MaxBounds(cs, Z);
    assert Along(cs[i], X) == cs[i].w && Along(cs[i], Z) == cs[i].d && Along(cs[i], Y) == cs[i].h;
  }
}
