/**
 * What the style resolver guarantees: the cascade is "the last source that
 * sets a key wins", over the sources in the order name rules, path rules,
 * descendant rules, inline style; descendant rules see the names of every
 * strict ancestor, root included; the typed style follows the merged map
 * key by key; openings keep list order.
 */
module ResolverFacts {
  import opened Base
  import opened Parser
  import opened TreeBuilder
  import opened Types
  import opened Resolver
  import TreeFacts

  // ------------------------------------------------------------ cascade

  /** Merging the maps `ms` over `m` one after the other. */
  function Fold(m: StyleMap, ms: seq<StyleMap>): StyleMap
    decreases |ms|
  {
    if ms == [] then m else MergeStyles(Fold(m, ms[..|ms| - 1]), ms[|ms| - 1])
  }

  /** The style maps of the rules a pass selects, in rule order. */
  function Matching(rules: seq<StyleRule>, pass: Pass, name: string, path: string, ancestors: seq<string>): seq<StyleMap>
    decreases |rules|
  {
    if rules == [] then []
    else
      var rest := Matching(rules[..|rules| - 1], pass, name, path, ancestors);
      if Selects(pass, rules[|rules| - 1].selector, name, path, ancestors) then rest + [rules[|rules| - 1].style] else rest
  }

  /** Every source of a node's merged style, lowest precedence first. */
  function Sources(node: DraftNode, rules: seq<StyleRule>, ancestors: seq<string>): seq<StyleMap> {
    Matching(rules, NamePass, node.name, node.path, ancestors) +
    Matching(rules, PathPass, node.name, node.path, ancestors) +
    Matching(rules, DescPass, node.name, node.path, ancestors) +
    [node.inlineStyle]
  }

  lemma {:induction false} FoldAppend(m: StyleMap, a: seq<StyleMap>, b: seq<StyleMap>)
    ensures Fold(m, a + b) == Fold(Fold(m, a), b)
    decreases |b|
  {
    if b == [] {
      assert a + b == a;
    } else {
      assert (a + b)[..|a + b| - 1] == a + b[..|b| - 1];
      FoldAppend(m, a, b[..|b| - 1]);
    }
  }

  lemma FoldSnoc(m: StyleMap, ms: seq<StyleMap>, x: StyleMap)
    ensures Fold(m, ms + [x]) == MergeStyles(Fold(m, ms), x)
  {
    assert (ms + [x])[..|ms|] == ms;
  }

  /** One pass of `applyRules` merges the selected rules' styles in order. */
  lemma {:induction false} AppliedIsFold(m: StyleMap, rules: seq<StyleRule>, pass: Pass, name: string, path: string, ancestors: seq<string>)
    ensures Applied(m, rules, pass, name, path, ancestors) == Fold(m, Matching(rules, pass, name, path, ancestors))
    decreases |rules|
  {
    if rules != [] {
      var init, last := rules[..|rules| - 1], rules[|rules| - 1];
      AppliedIsFold(m, init, pass, name, path, ancestors);
      var rest := Matching(init, pass, name, path, ancestors);
      if Selects(pass, last.selector, name, path, ancestors) {
        assert Applied(m, rules, pass, name, path, ancestors) == MergeStyles(Applied(m, init, pass, name, path, ancestors), last.style);
        assert Matching(rules, pass, name, path, ancestors) == rest + [last.style];
        FoldSnoc(m, rest, last.style);
      } else {
        assert Applied(m, rules, pass, name, path, ancestors) == Applied(m, init, pass, name, path, ancestors);
        assert Matching(rules, pass, name, path, ancestors) == rest;
      }
    }
  }

  /** The merged style merges every source, in cascade order, over the empty map. */
  lemma MergedIsFold(node: DraftNode, rules: seq<StyleRule>, ancestors: seq<string>)
    ensures MergedStyle(node, rules, ancestors) == Fold(map[], Sources(node, rules, ancestors))
  {
    var a := Matching(rules, NamePass, node.name, node.path, ancestors);
    var b := Matching(rules, PathPass, node.name, node.path, ancestors);
    var c := Matching(rules, DescPass, node.name, node.path, ancestors);
    AppliedIsFold(map[], rules, NamePass, node.name, node.path, ancestors);
    AppliedIsFold(Fold(map[], a), rules, PathPass, node.name, node.path, ancestors);
    AppliedIsFold(Fold(Fold(map[], a), b), rules, DescPass, node.name, node.path, ancestors);
    FoldAppend(map[], a, b);
    FoldAppend(map[], a + b, c);
    FoldAppend(map[], a + b + c, [node.inlineStyle]);
    assert Fold(Fold(map[], a + b + c), [node.inlineStyle]) == MergeStyles(Fold(map[], a + b + c), node.inlineStyle) by {
      assert [node.inlineStyle][..0] == [];
    }
  }

  /** The source at `i` sets key `k` and no later source does: the fold holds that source's value. */
  lemma {:induction false} FoldWinner(m: StyleMap, ms: seq<StyleMap>, k: string, i: nat)
    requires i < |ms| && k in ms[i]
    requires forall j :: i < j < |ms| ==> k !in ms[j]
    ensures k in Fold(m, ms) && Fold(m, ms)[k] == ms[i][k]
    decreases |ms|
  {
    MergeStylesFacts(Fold(m, ms[..|ms| - 1]), ms[|ms| - 1]);
    if i < |ms| - 1 {
      FoldWinner(m, ms[..|ms| - 1], k, i);
    }
  }

  /** A key no source sets and the start lacks stays absent. */
  lemma {:induction false} FoldAbsent(m: StyleMap, ms: seq<StyleMap>, k: string)
    requires k !in m
    requires forall j :: 0 <= j < |ms| ==> k !in ms[j]
    ensures k !in Fold(m, ms)
    decreases |ms|
  {
    if ms != [] {
      MergeStylesFacts(Fold(m, ms[..|ms| - 1]), ms[|ms| - 1]);
      FoldAbsent(m, ms[..|ms| - 1], k);
    }
  }

  /** The cascade: a key of the merged style has the value of the last source that sets it. */
  lemma CascadeWinner(node: DraftNode, rules: seq<StyleRule>, ancestors: seq<string>, k: string, i: nat)
    requires i < |Sources(node, rules, ancestors)| && k in Sources(node, rules, ancestors)[i]
    requires forall j :: i < j < |Sources(node, rules, ancestors)| ==> k !in Sources(node, rules, ancestors)[j]
    ensures k in MergedStyle(node, rules, ancestors)
    ensures MergedStyle(node, rules, ancestors)[k] == Sources(node, rules, ancestors)[i][k]
  {
    MergedIsFold(node, rules, ancestors);
    FoldWinner(map[], Sources(node, rules, ancestors), k, i);
  }

  /** The cascade: a key no source sets is absent from the merged style. */
  lemma CascadeAbsent(node: DraftNode, rules: seq<StyleRule>, ancestors: seq<string>, k: string)
    requires forall j :: 0 <= j < |Sources(node, rules, ancestors)| ==> k !in Sources(node, rules, ancestors)[j]
    ensures k !in MergedStyle(node, rules, ancestors)
  {
    MergedIsFold(node, rules, ancestors);
    FoldAbsent(map[], Sources(node, rules, ancestors), k);
  }

  /** The inline style overrides every rule. */
  lemma InlineWins(node: DraftNode, rules: seq<StyleRule>, ancestors: seq<string>, k: string)
    requires k in node.inlineStyle
    ensures k in MergedStyle(node, rules, ancestors) && MergedStyle(node, rules, ancestors)[k] == node.inlineStyle[k]
  {
    var src := Sources(node, rules, ancestors);
    CascadeWinner(node, rules, ancestors, k, |src| - 1);
  }

  /** A rule a pass selects contributes its style to that pass, in rule order. */
  lemma {:induction false} MatchingHas(rules: seq<StyleRule>, pass: Pass, name: string, path: string, ancestors: seq<string>, n: nat)
    requires n < |rules| && Selects(pass, rules[n].selector, name, path, ancestors)
    ensures rules[n].style in Matching(rules, pass, name, path, ancestors)
    decreases |rules|
  {
    if n < |rules| - 1 {
      MatchingHas(rules[..|rules| - 1], pass, name, path, ancestors, n);
    }
  }

  /** A descendant rule `a b` is among the sources exactly when a strict ancestor is named `a` and the node is named `b`. */
  lemma DescSelects(a: string, b: string, name: string, path: string, ancestors: seq<string>)
    ensures Selects(DescPass, Desc(a, b), name, path, ancestors) <==> b == name && a in ancestors
    ensures !Selects(NamePass, Desc(a, b), name, path, ancestors) && !Selects(PathPass, Desc(a, b), name, path, ancestors)
  {
  }

  // ------------------------------------------------------ ancestor names

  /** The draft node reached from `node` by following child indices `route`. */
  function Under(node: DraftNode, route: seq<nat>): DraftNode
    decreases |route|
  {
    if route == [] then node
    else
      var up := Under(node, route[..|route| - 1]);
      if route[|route| - 1] < |up.children| then up.children[route[|route| - 1]] else up
  }

  /** The resolved node reached the same way. */
  function UnderResolved(node: Node, route: seq<nat>): Node
    decreases |route|
  {
    if route == [] then node
    else
      var up := UnderResolved(node, route[..|route| - 1]);
      if route[|route| - 1] < |up.children| then up.children[route[|route| - 1]] else up
  }

  /** `route` follows existing children all the way. */
  predicate Reaches(node: DraftNode, route: seq<nat>)
    decreases |route|
  {
    route == [] ||
    (Reaches(node, route[..|route| - 1]) && route[|route| - 1] < |Under(node, route[..|route| - 1]).children|)
  }

  /** The names of the nodes strictly above the end of `route`, the start first. */
  function NamesAlong(node: DraftNode, route: seq<nat>): seq<string>
    decreases |route|
  {
    if route == [] then [] else NamesAlong(node, route[..|route| - 1]) + [Under(node, route[..|route| - 1]).name]
  }

  /** Every node is resolved with the names of all its strict ancestors, starting from the node resolution began at. */
  lemma {:induction false} ResolvedAlong(node: DraftNode, rules: seq<StyleRule>, ancestors: seq<string>, route: seq<nat>)
    requires Reaches(node, route)
    ensures UnderResolved(Resolve(node, rules, ancestors), route) ==
            Resolve(Under(node, route), rules, ancestors + NamesAlong(node, route))
    decreases |route|
  {
    if route == [] {
      assert ancestors + [] == ancestors;
    } else {
      var init := route[..|route| - 1];
      ResolvedAlong(node, rules, ancestors, init);
      var up := Under(node, init);
      assert ancestors + NamesAlong(node, route) == (ancestors + NamesAlong(node, init)) + [up.name];
    }
  }

  /** In the pipeline the root is named `root`, so a descendant rule `root X` reaches every node named X below it. */
  lemma RootIsAnAncestor(nodes: seq<NodeDecl>, route: seq<nat>)
    requires |route| > 0 && Reaches(Tree(nodes), route)
    ensures |NamesAlong(Tree(nodes), route)| > 0 && NamesAlong(Tree(nodes), route)[0] == "root"
  {
    NamesAlongStart(Tree(nodes), route);
    TreeFacts.TreeRoot(nodes);
  }

  lemma {:induction false} NamesAlongStart(node: DraftNode, route: seq<nat>)
    requires |route| > 0
    ensures |NamesAlong(node, route)| == |route| && NamesAlong(node, route)[0] == node.name
    decreases |route|
  {
    if |route| > 1 {
      NamesAlongStart(node, route[..|route| - 1]);
    } else {
      assert route[..0] == [];
    }
  }

  // -------------------------------------------------------- the node

  /** Name, path and content are copied; children are resolved in the same order and number; nothing is measured yet. */
  lemma ResolveShape(node: DraftNode, rules: seq<StyleRule>, ancestors: seq<string>)
    ensures var r := Resolve(node, rules, ancestors);
      r.name == node.name && r.path == node.path && r.content == node.content && r.measured.None? &&
      |r.children| == |node.children| &&
      forall i :: 0 <= i < |node.children| ==> r.children[i] == Resolve(node.children[i], rules, ancestors + [node.name])
  {
  }

  /** The typed style keeps the merged map and reads each field from it: dimensions, layout, gap, thickness, flex factors. */
  lemma ResolvedFields(node: DraftNode, rules: seq<StyleRule>, ancestors: seq<string>)
    ensures var r := Resolve(node, rules, ancestors);
      var m := MergedStyle(node, rules, ancestors);
      r.style.raw == m &&
      (forall x :: r.style.w == Fixed(x) <==> "w" in m && m["w"] == Num(x)) &&
      (forall x :: r.style.d == Fixed(x) <==> "d" in m && m["d"] == Num(x)) &&
      (forall x :: r.style.h == Fixed(x) <==> "h" in m && m["h"] == Num(x)) &&
      (r.style.layout == Some(Row) <==> "layout" in m && m["layout"] in {Str("row"), Ident("row")}) &&
      (r.style.layout == Some(Col) <==> "layout" in m && m["layout"] in {Str("col"), Ident("col")}) &&
      r.style.gap == (if "gap" in m && m["gap"].Num? then m["gap"].num else 0.0) &&
      r.style.t == (if "t" in m && m["t"].Num? then m["t"].num else if r.kind == Room then 0.12 else 0.0) &&
      (r.style.basis.Some? <==> "basis" in m && m["basis"].Num?) &&
      (r.style.grow.Some? <==> "grow" in m && m["grow"].Num?) &&
      (r.style.shrink.Some? <==> "shrink" in m && m["shrink"].Num?)
  {
  }

  /** The number under `key`, else `fallback`. */
  function NumOr(m: StyleMap, key: string, fallback: real): real {
    if key in m && m[key].Num? then m[key].num else fallback
  }

  /** Padding and margin: x and z fall back to the shared key then 0, y straight to 0. */
  lemma ResolvedSpacing(node: DraftNode, rules: seq<StyleRule>, ancestors: seq<string>)
    ensures var r := Resolve(node, rules, ancestors);
      var m := MergedStyle(node, rules, ancestors);
      r.style.padding == Vec3(NumOr(m, "px", NumOr(m, "p", 0.0)), NumOr(m, "py", 0.0), NumOr(m, "pz", NumOr(m, "p", 0.0))) &&
      r.style.margin == Vec3(NumOr(m, "mx", NumOr(m, "m", 0.0)), NumOr(m, "my", 0.0), NumOr(m, "mz", NumOr(m, "m", 0.0)))
  {
  }

  /** The kind: a room when declared, named or given openings; else a container exactly when there are children. */
  lemma ResolvedKind(node: DraftNode, rules: seq<StyleRule>, ancestors: seq<string>)
    ensures var r := Resolve(node, rules, ancestors);
      var m := MergedStyle(node, rules, ancestors);
      var room := ("kind" in m && m["kind"] in {Str("room"), Ident("room")}) || EndsWith(node.name, "Room") ||
                  |r.style.openings| > 0;
      r.style.openings == Openings(Lookup(m, "open")) &&
      (r.kind == Room <==> room) &&
      (r.kind == Container <==> !room && |node.children| > 0) &&
      (r.kind == Leaf <==> !room && |node.children| == 0)
  {
  }

  // --------------------------------------------------------- openings

  /** Decoding a list decodes each part on its own, keeping list order. */
  lemma {:induction false} OpeningsAppend(a: seq<StyleValue>, b: seq<StyleValue>)
    ensures OpeningsOf(a + b) == OpeningsOf(a) + OpeningsOf(b)
    decreases |b|
  {
    if b == [] {
      assert a + b == a;
    } else {
      assert (a + b)[..|a + b| - 1] == a + b[..|b| - 1];
      OpeningsAppend(a, b[..|b| - 1]);
    }
  }

  /** Every decoded opening comes from an item of the list, and there are never more openings than items. */
  lemma {:induction false} OpeningsFromItems(items: seq<StyleValue>)
    ensures |OpeningsOf(items)| <= |items|
    ensures forall o :: o in OpeningsOf(items) ==> exists i :: 0 <= i < |items| && DecodeItem(items[i]) == Some(o)
    decreases |items|
  {
    if items != [] {
      var init := items[..|items| - 1];
      OpeningsFromItems(init);
      forall o | o in OpeningsOf(items)
        ensures exists i :: 0 <= i < |items| && DecodeItem(items[i]) == Some(o)
      {
        if o in OpeningsOf(init) {
          var i :| 0 <= i < |init| && DecodeItem(init[i]) == Some(o);
          assert items[i] == init[i];
        } else {
          assert DecodeItem(items[|items| - 1]) == Some(o);
        }
      }
    }
  }

  /** `door(N, 4, 1.5, 2.1)` decodes to a door on the north wall with sill 0; a window without a fifth argument gets sill 0.9. */
  lemma OpeningExamples()
    ensures Openings(Some(List([Call("door", [ArgIdent("N"), ArgNum(4.0), ArgNum(1.5), ArgNum(2.1)])]))) ==
            [Opening(Door, N, 4.0, 1.5, 2.1, 0.0)]
    ensures Openings(Some(List([Call("window", [ArgStr("E"), ArgNum(1.0), ArgNum(1.2), ArgNum(1.0)])]))) ==
            [Opening(Window, E, 1.0, 1.2, 1.0, 0.9)]
    ensures Openings(Some(List([Call("door", [ArgIdent("X"), ArgNum(4.0), ArgNum(1.5), ArgNum(2.1)]), Ident("door")]))) == []
  {
    var d := Call("door", [ArgIdent("N"), ArgNum(4.0), ArgNum(1.5), ArgNum(2.1)]);
    assert [d][..0] == [];
    var w := Call("window", [ArgStr("E"), ArgNum(1.0), ArgNum(1.2), ArgNum(1.0)]);
    assert [w][..0] == [];
    var x := [Call("door", [ArgIdent("X"), ArgNum(4.0), ArgNum(1.5), ArgNum(2.1)]), Ident("door")];
    assert x[..1][..0] == [];
  }
}
