/**
 * Properties of the flex layout: what each box holds, where each child goes,
 * how the grow step shares out the leftover, and that a measured tree can
 * always be laid out.
 */
module LayoutFacts {
  import opened Base
  import opened Types
  import opened Measure
  import opened Layout

  // --------------------------------------------------------------- boxes

  /** The size a node falls back on where no override is given. */
  function Natural(node: Node): Size3 {
    node.measured.GetOr(Size3(0.0, 0.0, 0.0))
  }

  /**
   * A box is named by the node's path (its name for the root, whose path is
   * empty), carries the node and its kind, sits at the origin it was handed,
   * takes each size from the override else from the measured size, and has
   * one child box per child node, in order.
   */
  lemma BoxHead(node: Node, origin: Vec3, ov: Partial3)
    requires Layable(node)
    ensures var b := LayoutOf(node, origin, ov);
      b.id == (if node.path == "" then node.name else node.path) && b.kind == node.kind && b.node == node &&
      b.x == origin.x && b.y == origin.y && b.z == origin.z &&
      b.w == (if ov.w.Some? then ov.w.value else Natural(node).w) &&
      b.d == (if ov.d.Some? then ov.d.value else Natural(node).d) &&
      b.h == (if ov.h.Some? then ov.h.value else Natural(node).h) &&
      |b.children| == |node.children|
  {
  }

  /** Child box `i` lays out child node `i`. */
  lemma ChildInOrder(node: Node, origin: Vec3, ov: Partial3, i: nat)
    requires Layable(node) && i < |node.children|
    ensures |LayoutOf(node, origin, ov).children| == |node.children|
    ensures LayoutOf(node, origin, ov).children[i].node == node.children[i]
  {
    var c := node.children[i];
    assert Layable(c);
    if node.style.layout.None? {
      assert LayoutOf(node, origin, ov).children[i] == LayoutOf(c, node.style.padding, NoOverride);
      BoxHead(c, node.style.padding, NoOverride);
    } else {
      var mainIsX := node.style.layout == Some(Row);
      var fs := FlexInfos(node);
      var o := ChildOrigin(node.style.padding, mainIsX, Cursor(fs, node.style.gap, i));
      assert LayoutOf(node, origin, ov).children[i] == LayoutOf(c, o, ChildOverride(fs[i], mainIsX));
      BoxHead(c, o, ChildOverride(fs[i], mainIsX));
    }
  }

  /** The size override and the origin of a box do not change how its children are placed. */
  lemma ChildrenIgnoreOverride(node: Node, o1: Vec3, ov1: Partial3, o2: Vec3, ov2: Partial3)
    requires Layable(node)
    ensures LayoutOf(node, o1, ov1).children == LayoutOf(node, o2, ov2).children
  {
  }

  /** A stacking node puts every child at its own padding, at the child's measured size. */
  lemma StackPlacement(node: Node, origin: Vec3, ov: Partial3, i: nat)
    requires Layable(node) && node.style.layout.None? && i < |node.children|
    ensures |LayoutOf(node, origin, ov).children| == |node.children|
    ensures var b, c := LayoutOf(node, origin, ov).children[i], node.children[i];
      b.x == node.style.padding.x && b.y == node.style.padding.y && b.z == node.style.padding.z &&
      b.w == Natural(c).w && b.d == Natural(c).d && b.h == Natural(c).h
  {
    var c := node.children[i];
    assert Layable(c);
    assert LayoutOf(node, origin, ov).children[i] == LayoutOf(c, node.style.padding, NoOverride);
    BoxHead(c, node.style.padding, NoOverride);
  }

  /**
   * A row or col node puts child `i` at the padding plus the cursor on the
   * main axis (x for a row, z for a col) and at the padding across; the child
   * box takes its final main size on the main axis, its measured size across
   * and its measured height.
   */
  lemma FlexPlacement(node: Node, origin: Vec3, ov: Partial3, i: nat)
    requires Layable(node) && node.style.layout.Some? && i < |node.children|
    ensures |LayoutOf(node, origin, ov).children| == |node.children|
    ensures var b, c, fs := LayoutOf(node, origin, ov).children[i], node.children[i], FlexInfos(node);
      var p, at := node.style.padding, Cursor(fs, node.style.gap, i);
      c.measured.Some? &&
      if node.style.layout == Some(Row) then
        b.x == p.x + at && b.y == p.y && b.z == p.z && b.w == fs[i].main && b.d == c.measured.value.d &&
        b.h == c.measured.value.h
      else
        b.x == p.x && b.y == p.y && b.z == p.z + at && b.d == fs[i].main && b.w == c.measured.value.w &&
        b.h == c.measured.value.h
  {
    var c := node.children[i];
    assert Layable(c);
    var mainIsX := node.style.layout == Some(Row);
    var fs := FlexInfos(node);
    FlexInfosKeep(node, i);
    var o := ChildOrigin(node.style.padding, mainIsX, Cursor(fs, node.style.gap, i));
    assert LayoutOf(node, origin, ov).children[i] == LayoutOf(c, o, ChildOverride(fs[i], mainIsX));
    BoxHead(c, o, ChildOverride(fs[i], mainIsX));
  }

  // ---------------------------------------------------------- child info

  /**
   * The final info of child `i` keeps the child, its measured size, its cross
   * size (depth in a row, width in a col) and its grow factor; only the main
   * size may change, and it changes only in the grow step.
   */
  lemma FlexInfosKeep(node: Node, i: nat)
    requires FlexReady(node) && i < |node.children|
    ensures var f, c, mainIsX := FlexInfos(node)[i], node.children[i], node.style.layout == Some(Row);
      c.measured.Some? && f.child == c && f.natural == c.measured.value &&
      f.cross == (if mainIsX then c.measured.value.d else c.measured.value.w) &&
      f.grow == c.style.grow.GetOr(0.0)
  {
  }

  /** Before the grow step a child's main size is its `basis`, else its measured size on the main axis. */
  lemma ProvisionalMain(node: Node, mainIsX: bool, i: nat)
    requires FlexReady(node) && i < |node.children|
    ensures var c := node.children[i];
      c.measured.Some? &&
      Infos(node, mainIsX)[i].main ==
        (if c.style.basis.Some? then c.style.basis.value
         else if mainIsX then c.measured.value.w else c.measured.value.d)
  {
  }

  /** The leftover on the main axis, before the grow step. */
  function Leftover(infos: seq<Info>, mainSize: real, gap: real): real {
    mainSize - (SumMain(infos) + Gaps(gap, |infos|))
  }

  /** Without room left over or without a grow factor, no main size changes. */
  lemma NoGrowKeeps(infos: seq<Info>, mainSize: real, gap: real)
    requires !(Leftover(infos, mainSize, gap) > 0.0 && SumGrow(infos) > 0.0)
    ensures Distribute(infos, mainSize, gap) == infos
  {
  }

  lemma DivAdd(l: real, a: real, b: real, g: real)
    requires g > 0.0
    ensures (l * a) / g + (l * b) / g == (l * (a + b)) / g
  {
    assert l * (a + b) == l * a + l * b;
  }

  /** Growing adds `leftover * grow / sumGrow` to every main size, so the sum rises by `leftover * SumGrow / sumGrow`. */
  lemma {:induction false} GrownSum(infos: seq<Info>, leftover: real, sumGrow: real)
    requires sumGrow > 0.0
    ensures SumMain(Grown(infos, leftover, sumGrow)) == SumMain(infos) + (leftover * SumGrow(infos)) / sumGrow
    decreases |infos|
  {
    if infos == [] {
      assert Grown(infos, leftover, sumGrow) == [];
    } else {
      var n := |infos| - 1;
      var g := Grown(infos, leftover, sumGrow);
      var init := infos[..n];
      var gi := Grown(init, leftover, sumGrow);
      assert |g[..n]| == |gi|;
      forall k | 0 <= k < n
        ensures g[..n][k] == gi[k]
      {
        assert g[..n][k] == g[k] == Share(infos[k], leftover, sumGrow);
        assert gi[k] == Share(init[k], leftover, sumGrow);
      }
      assert g[..n] == gi;
      assert SumMain(g) == SumMain(gi) + g[n].main;
      assert g[n].main == infos[n].main + (leftover * infos[n].grow) / sumGrow;
      GrownSum(init, leftover, sumGrow);
      assert SumMain(infos) == SumMain(init) + infos[n].main;
      assert SumGrow(infos) == SumGrow(init) + infos[n].grow;
      DivAdd(leftover, SumGrow(init), infos[n].grow, sumGrow);
    }
  }

  /**
   * When there is room left and something grows, the grown main sizes and
   * the gaps fill the content length exactly.
   */
  lemma GrowFills(infos: seq<Info>, mainSize: real, gap: real)
    requires Leftover(infos, mainSize, gap) > 0.0 && SumGrow(infos) > 0.0
    ensures SumMain(Distribute(infos, mainSize, gap)) + Gaps(gap, |infos|) == mainSize
  {
    var l, g := Leftover(infos, mainSize, gap), SumGrow(infos);
    var sm, gp := SumMain(infos), Gaps(gap, |infos|);
    assert l == mainSize - (sm + gp);
    assert Distribute(infos, mainSize, gap) == Grown(infos, l, g);
    GrownSum(infos, l, g);
    assert SumMain(Grown(infos, l, g)) == sm + (l * g) / g;
    MulDiv(l, g);
    assert SumMain(Grown(infos, l, g)) == sm + l;
  }

  lemma MulDiv(l: real, g: real)
    requires g > 0.0
    ensures (l * g) / g == l
  {
  }

  /** The grow step changes only main sizes, and never shrinks a child whose grow factor is not negative. */
  lemma GrowOnlyMain(infos: seq<Info>, mainSize: real, gap: real, i: nat)
    requires i < |infos|
    ensures var f, e := Distribute(infos, mainSize, gap)[i], infos[i];
      f.child == e.child && f.natural == e.natural && f.cross == e.cross && f.grow == e.grow &&
      (e.grow >= 0.0 ==> f.main >= e.main)
  {
    var l, g := Leftover(infos, mainSize, gap), SumGrow(infos);
    if l > 0.0 && g > 0.0 && infos[i].grow >= 0.0 {
      assert l * infos[i].grow >= 0.0;
    }
  }

  /** The cursor at child `i` is the main sizes before it plus one gap each. */
  lemma {:induction false} CursorIsPrefixSum(infos: seq<Info>, gap: real, i: nat)
    requires i <= |infos|
    ensures Cursor(infos, gap, i) == SumMain(infos[..i]) + (i as real) * gap
    decreases i
  {
    if i > 0 {
      CursorIsPrefixSum(infos, gap, i - 1);
      assert infos[..i][..i - 1] == infos[..i - 1];
    }
  }

  // -------------------------------------------------------- admissibility

  /** A tree in which every node is measured can be laid out. */
  lemma {:induction false} MeasuredIsLayable(node: Node)
    requires AllMeasured(node)
    ensures Layable(node)
    decreases node
  {
    forall i | 0 <= i < |node.children|
      ensures Layable(node.children[i])
    {
      MeasuredIsLayable(node.children[i]);
    }
  }

  /** The measurer's output can always be laid out. */
  lemma MeasuredTreeLayable(root: Node)
    ensures Layable(Measure.Measure(root))
  {
    EveryNodeMeasured(root);
    MeasuredIsLayable(Measure.Measure(root));
  }

  // --------------------------------------------------------------- shrink

  /** `b` is `a` with the shrink factor of any of its nodes changed, and nothing else. */
  predicate ShrinkVariant(a: Node, b: Node)
    decreases a
  {
    b == a.(style := a.style.(shrink := b.style.shrink), children := b.children) &&
    |a.children| == |b.children| &&
    forall i :: 0 <= i < |a.children| ==> ShrinkVariant(a.children[i], b.children[i])
  }

  /** Two boxes with the same name, kind, origin and size, and so on for their child boxes. */
  predicate SameGeometry(p: Box, q: Box)
    decreases p
  {
    p.id == q.id && p.kind == q.kind && p.x == q.x && p.y == q.y && p.z == q.z &&
    p.w == q.w && p.h == q.h && p.d == q.d && |p.children| == |q.children| &&
    forall i :: 0 <= i < |p.children| ==> SameGeometry(p.children[i], q.children[i])
  }

  /** Two info lists that agree in everything the layout reads: sizes and grow factors. */
  predicate SameInfos(p: seq<Info>, q: seq<Info>) {
    |p| == |q| &&
    forall i :: 0 <= i < |p| ==>
      p[i].natural == q[i].natural && p[i].main == q[i].main && p[i].cross == q[i].cross && p[i].grow == q[i].grow
  }

  /** Changing shrink factors keeps every `measured!` the layout reads. */
  lemma {:induction false} VariantLayable(a: Node, b: Node)
    requires ShrinkVariant(a, b) && Layable(a)
    ensures Layable(b)
    decreases a
  {
    forall i | 0 <= i < |b.children|
      ensures Layable(b.children[i]) && b.children[i].measured == a.children[i].measured
    {
      VariantLayable(a.children[i], b.children[i]);
    }
  }

  lemma {:induction false} SumsAgree(p: seq<Info>, q: seq<Info>)
    requires SameInfos(p, q)
    ensures SumMain(p) == SumMain(q) && SumGrow(p) == SumGrow(q)
    decreases |p|
  {
    if p != [] {
      var k := |p| - 1;
      assert SameInfos(p[..k], q[..k]);
      SumsAgree(p[..k], q[..k]);
    }
  }

  /** The grow step treats agreeing info lists alike. */
  lemma DistributeAgrees(p: seq<Info>, q: seq<Info>, mainSize: real, gap: real)
    requires SameInfos(p, q)
    ensures SameInfos(Distribute(p, mainSize, gap), Distribute(q, mainSize, gap))
  {
    SumsAgree(p, q);
    var leftover := mainSize - (SumMain(p) + Gaps(gap, |p|));
    if leftover > 0.0 && SumGrow(p) > 0.0 {
      GrownAgrees(p, q, leftover, SumGrow(p));
    }
  }

  lemma GrownAgrees(p: seq<Info>, q: seq<Info>, leftover: real, sumGrow: real)
    requires SameInfos(p, q) && sumGrow > 0.0
    ensures SameInfos(Grown(p, leftover, sumGrow), Grown(q, leftover, sumGrow))
  {
    var gp, gq := Grown(p, leftover, sumGrow), Grown(q, leftover, sumGrow);
    forall i | 0 <= i < |gp|
      ensures gp[i].natural == gq[i].natural && gp[i].main == gq[i].main && gp[i].cross == gq[i].cross &&
              gp[i].grow == gq[i].grow
    {
      assert gp[i] == Share(p[i], leftover, sumGrow) && gq[i] == Share(q[i], leftover, sumGrow);
    }
  }

  lemma {:induction false} CursorAgrees(p: seq<Info>, q: seq<Info>, gap: real, i: nat)
    requires SameInfos(p, q) && i <= |p|
    ensures Cursor(p, gap, i) == Cursor(q, gap, i)
    decreases i
  {
    if i > 0 {
      CursorAgrees(p, q, gap, i - 1);
    }
  }

  /** The final infos of a row or col node do not depend on shrink factors. */
  lemma FlexInfosAgree(a: Node, b: Node)
    requires ShrinkVariant(a, b) && FlexReady(a) && FlexReady(b)
    ensures SameInfos(FlexInfos(a), FlexInfos(b))
  {
    var mainIsX := a.style.layout == Some(Row);
    var ia, ib := Infos(a, mainIsX), Infos(b, mainIsX);
    forall i | 0 <= i < |ia|
      ensures ia[i].natural == ib[i].natural && ia[i].main == ib[i].main && ia[i].cross == ib[i].cross &&
              ia[i].grow == ib[i].grow
    {
      assert ShrinkVariant(a.children[i], b.children[i]);
    }
    DistributeAgrees(ia, ib, MainSize(a, mainIsX), a.style.gap);
  }

  /**
   * `shrink` is never read by the layout: trees that differ only in shrink
   * factors are laid out with the same boxes at the same places and sizes.
   */
  lemma {:induction false} ShrinkIgnored(a: Node, b: Node, origin: Vec3, ov: Partial3)
    requires ShrinkVariant(a, b) && Layable(a)
    ensures Layable(b) && SameGeometry(LayoutOf(a, origin, ov), LayoutOf(b, origin, ov))
    decreases a, 1
  {
    VariantLayable(a, b);
    var pa, pb := LayoutOf(a, origin, ov), LayoutOf(b, origin, ov);
    forall i | 0 <= i < |a.children|
      ensures SameGeometry(pa.children[i], pb.children[i])
    {
      if a.style.layout.None? {
        StackChildAgrees(a, b, origin, ov, i);
      } else {
        FlexChildAgrees(a, b, origin, ov, i);
      }
    }
  }

  lemma {:induction false} StackChildAgrees(a: Node, b: Node, origin: Vec3, ov: Partial3, i: nat)
    requires ShrinkVariant(a, b) && Layable(a) && Layable(b) && a.style.layout.None? && i < |a.children|
    ensures |LayoutOf(a, origin, ov).children| == |LayoutOf(b, origin, ov).children| == |a.children|
    ensures SameGeometry(LayoutOf(a, origin, ov).children[i], LayoutOf(b, origin, ov).children[i])
    decreases a, 0
  {
    var c, d := a.children[i], b.children[i];
    assert ShrinkVariant(c, d) && Layable(c);
    assert b.style.padding == a.style.padding && b.style.layout.None?;
    assert LayoutOf(a, origin, ov).children[i] == LayoutOf(c, a.style.padding, NoOverride);
    assert LayoutOf(b, origin, ov).children[i] == LayoutOf(d, a.style.padding, NoOverride);
    ShrinkIgnored(c, d, a.style.padding, NoOverride);
  }

  lemma {:induction false} FlexChildAgrees(a: Node, b: Node, origin: Vec3, ov: Partial3, i: nat)
    requires ShrinkVariant(a, b) && Layable(a) && Layable(b) && a.style.layout.Some? && i < |a.children|
    ensures |LayoutOf(a, origin, ov).children| == |LayoutOf(b, origin, ov).children| == |a.children|
    ensures SameGeometry(LayoutOf(a, origin, ov).children[i], LayoutOf(b, origin, ov).children[i])
    decreases a, 0
  {
    var c, d := a.children[i], b.children[i];
    assert ShrinkVariant(c, d) && Layable(c);
    assert b.style.padding == a.style.padding && b.style.layout == a.style.layout && b.style.gap == a.style.gap;
    var mainIsX := a.style.layout == Some(Row);
    var fa, fb := FlexInfos(a), FlexInfos(b);
    FlexInfosAgree(a, b);
    CursorAgrees(fa, fb, a.style.gap, i);
    var o := ChildOrigin(a.style.padding, mainIsX, Cursor(fa, a.style.gap, i));
    var v := ChildOverride(fa[i], mainIsX);
    assert ChildOverride(fb[i], mainIsX) == v;
    assert LayoutOf(a, origin, ov).children[i] == LayoutOf(c, o, v);
    assert LayoutOf(b, origin, ov).children[i] == LayoutOf(d, o, v);
    ShrinkIgnored(c, d, o, v);
  }
}
