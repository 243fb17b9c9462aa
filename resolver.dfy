/**
 * The style resolver (src/hsml/resolveStyles.ts).
 *
 * Each draft node gets a merged style map, built by folding the rules over
 * an empty map in three passes (name rules, path rules, descendant rules) and
 * then the node's inline style, later entries overriding earlier ones key by
 * key.  The merged map is decoded into a typed `ResolvedStyle` and a kind.
 *
 * `Applied`, `Openings` and `Resolve` are the specifications;
 * `ApplyRules`, `ComputeMergedStyle`, `DecodeOpenings` and `ResolveNode` are
 * the loops and the recursion of the source, each proved equal to its
 * specification.
 */
module Resolver {
  import opened Base
  import opened Parser
  import opened TreeBuilder
  import opened Types

  // ------------------------------------------------------------ cascade

  /** The three passes of `computeMergedStyle`, in the order they run. */
  datatype Pass = NamePass | PathPass | DescPass

  /** The predicate of a pass: does a rule with selector `s` apply to the node? */
  predicate Selects(pass: Pass, s: Selector, name: string, path: string, ancestors: seq<string>) {
    match pass
    case NamePass => s.ByName? && s.a == name
    case PathPass => s.ByPath? && s.a == path
    case DescPass => s.Desc? && s.a in ancestors && s.b == name
  }

  /** `applyRules` as a fold: `merged` after the loop has run over `rules`. */
  function Applied(merged: StyleMap, rules: seq<StyleRule>, pass: Pass, name: string, path: string, ancestors: seq<string>): StyleMap
    decreases |rules|
  {
    if rules == [] then merged
    else
      var m := Applied(merged, rules[..|rules| - 1], pass, name, path, ancestors);
      var r := rules[|rules| - 1];
      if Selects(pass, r.selector, name, path, ancestors) then MergeStyles(m, r.style) else m
  }

  /** `applyRules(merged, rules, predicate)`: `Object.assign(merged, rule.style)` for each selected rule in turn. */
  method ApplyRules(merged: StyleMap, rules: seq<StyleRule>, pass: Pass, name: string, path: string, ancestors: seq<string>)
    returns (m: StyleMap)
    ensures m == Applied(merged, rules, pass, name, path, ancestors)
  {
    m := merged;
    for i := 0 to |rules|
      invariant m == Applied(merged, rules[..i], pass, name, path, ancestors)
    {
      assert rules[..i + 1][..i] == rules[..i];
      if Selects(pass, rules[i].selector, name, path, ancestors) {
        m := MergeStyles(m, rules[i].style);
      }
    }
    assert rules[..|rules|] == rules;
  }

  /** The merged style of a node whose strict ancestors are named `ancestors`, root first. */
  function MergedStyle(node: DraftNode, rules: seq<StyleRule>, ancestors: seq<string>): StyleMap {
    var byName := Applied(map[], rules, NamePass, node.name, node.path, ancestors);
    var byPath := Applied(byName, rules, PathPass, node.name, node.path, ancestors);
    var byDesc := Applied(byPath, rules, DescPass, node.name, node.path, ancestors);
    MergeStyles(byDesc, node.inlineStyle)
  }

  /** `computeMergedStyle`: three passes of `applyRules`, then the inline style. */
  method ComputeMergedStyle(node: DraftNode, rules: seq<StyleRule>, ancestors: seq<string>) returns (merged: StyleMap)
    ensures merged == MergedStyle(node, rules, ancestors)
  {
    merged := map[];
    merged := ApplyRules(merged, rules, NamePass, node.name, node.path, ancestors);
    merged := ApplyRules(merged, rules, PathPass, node.name, node.path, ancestors);
    merged := ApplyRules(merged, rules, DescPass, node.name, node.path, ancestors);
    merged := MergeStyles(merged, node.inlineStyle);
  }

  // --------------------------------------------------------- coercions

  /** `style[key]`: the value, or `undefined` when the key is absent. */
  function Lookup(m: StyleMap, key: string): (r: Option<StyleValue>)
    ensures r.Some? <==> key in m
    ensures r.Some? ==> r.value == m[key]
  {
    if key in m then Some(m[key]) else None
  }

  /** `numberVal`: the number, when the value is one. */
  function NumberVal(v: Option<StyleValue>): (r: Option<real>)
    ensures r.Some? <==> v.Some? && v.value.Num?
    ensures r.Some? ==> v.value == Num(r.value)
  {
    if v.Some? && v.value.Num? then Some(v.value.num) else None
  }

  /** `numericOrAuto`: the number, else `auto`. */
  function NumericOrAuto(v: Option<StyleValue>): (r: Dim)
    ensures r.Fixed? <==> v.Some? && v.value.Num?
    ensures r.Fixed? ==> v.value == Num(r.value)
  {
    match NumberVal(v)
    case Some(x) => Fixed(x)
    case None => Auto
  }

  /** `stringVal`: the text of a string or of an identifier. */
  function StringVal(v: Option<StyleValue>): (r: Option<string>)
    ensures r.Some? <==> v.Some? && (v.value.Str? || v.value.Ident?)
    ensures r.Some? ==> v.value == Str(r.value) || v.value == Ident(r.value)
  {
    if v.None? then None
    else if v.value.Str? then Some(v.value.str)
    else if v.value.Ident? then Some(v.value.ident)
    else None
  }

  /** `layoutVal`: `row` or `col` written as a string or an identifier; anything else leaves the layout unset. */
  function LayoutVal(v: Option<StyleValue>): (r: Option<Layout>)
    ensures r == Some(Row) <==> StringVal(v) == Some("row")
    ensures r == Some(Col) <==> StringVal(v) == Some("col")
  {
    var s := StringVal(v);
    if s == Some("row") then Some(Row)
    else if s == Some("col") then Some(Col)
    else None
  }

  /** `getPadding`: x falls back to `p` then 0, z likewise, and y to 0 alone. */
  function GetPadding(style: StyleMap): (r: Vec3)
    ensures r.x == NumberVal(Lookup(style, "px")).GetOr(NumberVal(Lookup(style, "p")).GetOr(0.0))
    ensures r.z == NumberVal(Lookup(style, "pz")).GetOr(NumberVal(Lookup(style, "p")).GetOr(0.0))
    ensures r.y == NumberVal(Lookup(style, "py")).GetOr(0.0)
  {
    var p := NumberVal(Lookup(style, "p")).GetOr(0.0);
    Vec3(NumberVal(Lookup(style, "px")).GetOr(p), NumberVal(Lookup(style, "py")).GetOr(0.0),
         NumberVal(Lookup(style, "pz")).GetOr(p))
  }

  /** `getMargin`: the same fallbacks over the `m` keys. */
  function GetMargin(style: StyleMap): (r: Vec3)
    ensures r.x == NumberVal(Lookup(style, "mx")).GetOr(NumberVal(Lookup(style, "m")).GetOr(0.0))
    ensures r.z == NumberVal(Lookup(style, "mz")).GetOr(NumberVal(Lookup(style, "m")).GetOr(0.0))
    ensures r.y == NumberVal(Lookup(style, "my")).GetOr(0.0)
  {
    var m := NumberVal(Lookup(style, "m")).GetOr(0.0);
    Vec3(NumberVal(Lookup(style, "mx")).GetOr(m), NumberVal(Lookup(style, "my")).GetOr(0.0),
         NumberVal(Lookup(style, "mz")).GetOr(m))
  }

  predicate EndsWith(s: string, suffix: string) {
    |suffix| <= |s| && s[|s| - |suffix|..] == suffix
  }

  /** The conditions under which `inferKind` answers `room`. */
  predicate RoomLike(name: string, declaredKind: Option<string>, openings: seq<Opening>) {
    declaredKind == Some("room") || name == "Room" || EndsWith(name, "Room") || |openings| > 0
  }

  /** `inferKind`: a room when declared, named or opened as one; otherwise a container exactly when it has children. */
  function InferKind(name: string, declaredKind: Option<string>, openings: seq<Opening>, hasChildren: bool): (r: Kind)
    ensures r == Room <==> RoomLike(name, declaredKind, openings)
    ensures r == Container <==> !RoomLike(name, declaredKind, openings) && hasChildren
    ensures r == Leaf <==> !RoomLike(name, declaredKind, openings) && !hasChildren
  {
    if declaredKind == Some("room") then Room
    else if name == "Room" || EndsWith(name, "Room") then Room
    else if |openings| > 0 then Room
    else if hasChildren then Container
    else Leaf
  }

  // ---------------------------------------------------------- openings

  /** `call.args[i]`: `undefined` past the end. */
  function ArgAt(args: seq<Arg>, i: nat): Option<Arg> {
    if i < |args| then Some(args[i]) else None
  }

  /** `argIdent`: the text of a non-empty string or of any identifier. */
  function ArgIdentOf(v: Option<Arg>): Option<string> {
    match v
    case None => None
    case Some(ArgNum(_)) => None
    case Some(ArgStr(s)) => if s == "" then None else Some(s)
    case Some(ArgIdent(x)) => Some(x)
  }

  /** `argNumber(v, fallback)`: the number, else the fallback. */
  function ArgNumber(v: Option<Arg>, fallback: Option<real>): Option<real> {
    if v.Some? && v.value.ArgNum? then Some(v.value.num) else fallback
  }

  function WallNamed(s: string): Option<Wall> {
    if s == "N" then Some(N) else if s == "E" then Some(E) else if s == "S" then Some(S) else if s == "W" then Some(W) else None
  }

  function WallName(w: Wall): string {
    match w
    case N => "N"
    case E => "E"
    case S => "S"
    case W => "W"
  }

  /** An argument naming a wall: one of N, E, S, W, written as a string or an identifier. */
  predicate WallArg(a: Arg) {
    (a.ArgStr? && WallNamed(a.str).Some?) || (a.ArgIdent? && WallNamed(a.ident).Some?)
  }

  /** The text of a wall argument. */
  function ArgText(a: Arg): string {
    match a
    case ArgNum(_) => ""
    case ArgStr(s) => s
    case ArgIdent(x) => x
  }

  /** The body of the `decodeOpenings` loop for one list item: the opening it pushes, if any. */
  function DecodeItem(item: StyleValue): (r: Option<Opening>)
    ensures r.Some? <==>
      item.Call? && (item.name == "door" || item.name == "window") && |item.args| >= 4 &&
      WallArg(item.args[0]) && item.args[1].ArgNum? && item.args[2].ArgNum? && item.args[3].ArgNum?
    ensures r.Some? ==>
      WallName(r.value.wall) == ArgText(item.args[0]) &&
      r.value.offset == item.args[1].num && r.value.w == item.args[2].num && r.value.h == item.args[3].num &&
      (r.value.kind == Window <==> item.name == "window") &&
      r.value.sill == (if item.name == "door" then 0.0
                       else if |item.args| > 4 && item.args[4].ArgNum? then item.args[4].num else 0.9)
  {
    if !item.Call? then None
    else if item.name != "door" && item.name != "window" then None
    else
      var args := item.args;
      var wall := ArgIdentOf(ArgAt(args, 0));
      var offset := ArgNumber(ArgAt(args, 1), None);
      var width := ArgNumber(ArgAt(args, 2), None);
      var height := ArgNumber(ArgAt(args, 3), None);
      var sill := if item.name == "window" then ArgNumber(ArgAt(args, 4), Some(0.9)).value else 0.0;
      if wall.None? || wall.value == "" || offset.None? || width.None? || height.None? then None
      else if WallNamed(wall.value).None? then None
      else
        Some(Opening(if item.name == "door" then Door else Window, WallNamed(wall.value).value,
                     offset.value, width.value, height.value, sill))
  }

  /** The openings a list decodes to, in list order. */
  function OpeningsOf(items: seq<StyleValue>): seq<Opening>
    decreases |items|
  {
    if items == [] then []
    else
      var rest := OpeningsOf(items[..|items| - 1]);
      match DecodeItem(items[|items| - 1])
      case Some(o) => rest + [o]
      case None => rest
  }

  /** `decodeOpenings(value)`: only a list decodes to openings; a falsy or other value gives none. */
  function Openings(value: Option<StyleValue>): seq<Opening> {
    if value.Some? && value.value.List? then OpeningsOf(value.value.items) else []
  }

  /** `decodeOpenings`: walks the list, skipping every item that is not a well-formed door or window. */
  method DecodeOpenings(value: Option<StyleValue>) returns (openings: seq<Opening>)
    ensures openings == Openings(value)
  {
    if value.None? || value == Some(Num(0.0)) || value == Some(Str("")) {
      return [];
    }
    if !value.value.List? {
      return [];
    }
    var items := value.value.items;
    openings := [];
    for k := 0 to |items|
      invariant openings == OpeningsOf(items[..k])
    {
      assert items[..k + 1][..k] == items[..k];
      var item := items[k];
      if !item.Call? {
        continue;
      }
      if item.name != "door" && item.name != "window" {
        continue;
      }
      var wall := ArgIdentOf(ArgAt(item.args, 0));
      var offset := ArgNumber(ArgAt(item.args, 1), None);
      var width := ArgNumber(ArgAt(item.args, 2), None);
      var height := ArgNumber(ArgAt(item.args, 3), None);
      var sill := if item.name == "window" then ArgNumber(ArgAt(item.args, 4), Some(0.9)).value else 0.0;
      if wall.None? || wall.value == "" || offset.None? || width.None? || height.None? {
        continue;
      }
      if WallNamed(wall.value).None? {
        continue;
      }
      openings := openings + [Opening(if item.name == "door" then Door else Window, WallNamed(wall.value).value,
                                      offset.value, width.value, height.value, sill)];
    }
    assert items[..|items|] == items;
  }

  // ------------------------------------------------------------ nodes

  /** The typed style decoded from a merged map, for a node of the given kind. */
  function StyleOf(merged: StyleMap, kind: Kind, openings: seq<Opening>, declaredKind: Option<string>): ResolvedStyle {
    ResolvedStyle(
      NumericOrAuto(Lookup(merged, "w")),
      NumericOrAuto(Lookup(merged, "d")),
      NumericOrAuto(Lookup(merged, "h")),
      LayoutVal(Lookup(merged, "layout")),
      NumberVal(Lookup(merged, "gap")).GetOr(0.0),
      GetPadding(merged),
      GetMargin(merged),
      NumberVal(Lookup(merged, "basis")),
      NumberVal(Lookup(merged, "grow")),
      NumberVal(Lookup(merged, "shrink")),
      NumberVal(Lookup(merged, "t")).GetOr(if kind == Room then 0.12 else 0.0),
      openings,
      merged,
      declaredKind)
  }

  /** The part of `resolveNode` that reads the merged map: the typed style and the kind. */
  function Head(node: DraftNode, rules: seq<StyleRule>, ancestors: seq<string>): (ResolvedStyle, Kind) {
    var merged := MergedStyle(node, rules, ancestors);
    var openings := Openings(Lookup(merged, "open"));
    var declaredKind := StringVal(Lookup(merged, "kind"));
    var kind := InferKind(node.name, declaredKind, openings, |node.children| > 0);
    (StyleOf(merged, kind, openings, declaredKind), kind)
  }

  /** `resolveNode`: the resolved node, its children resolved with this node's name appended to the ancestors. */
  function Resolve(node: DraftNode, rules: seq<StyleRule>, ancestors: seq<string>): Node
    decreases node
  {
    var head := Head(node, rules, ancestors);
    Node(node.name, node.path,
         seq(|node.children|, i requires 0 <= i < |node.children| => Resolve(node.children[i], rules, ancestors + [node.name])),
         node.content, head.0, head.1, None)
  }

  /** The head of `resolveNode`, with its two loops. */
  method ResolveHead(node: DraftNode, rules: seq<StyleRule>, ancestors: seq<string>) returns (style: ResolvedStyle, kind: Kind)
    ensures (style, kind) == Head(node, rules, ancestors)
  {
    var merged := ComputeMergedStyle(node, rules, ancestors);
    var openings := DecodeOpenings(Lookup(merged, "open"));
    var declaredKind := StringVal(Lookup(merged, "kind"));
    kind := InferKind(node.name, declaredKind, openings, |node.children| > 0);
    style := StyleOf(merged, kind, openings, declaredKind);
  }

  /** The recursion of `resolveNode`, with `children.map` as a loop. */
  method ResolveNode(node: DraftNode, rules: seq<StyleRule>, ancestors: seq<string>) returns (r: Node)
    ensures r == Resolve(node, rules, ancestors)
    decreases node
  {
    var style, kind := ResolveHead(node, rules, ancestors);
    var inner := ancestors + [node.name];
    ghost var want := Resolve(node, rules, ancestors).children;
    var children: seq<Node> := [];
    for i := 0 to |node.children|
      invariant children == want[..i]
    {
      var child := ResolveNode(node.children[i], rules, inner);
      assert child == want[i];
      PrefixSnoc(want, i);
      children := children + [child];
    }
    assert children == want;
    r := Node(node.name, node.path, children, node.content, style, kind, None);
  }

  /** `resolveStyles(root, rules)`: the root has no ancestors. */
  method ResolveStyles(root: DraftNode, rules: seq<StyleRule>) returns (r: Node)
    ensures r == Resolve(root, rules, [])
  {
    r := ResolveNode(root, rules, []);
  }
}
