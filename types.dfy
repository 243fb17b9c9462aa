/**
 * The resolved node tree and its parts (src/hsml/types.ts): what the style
 * resolver produces, the measurer annotates with sizes, and the validator and
 * the layout read.
 */
module Types {
  import opened Base
  import opened Parser

  /** A dimension: a number, or `auto` when the style gives none. */
  datatype Dim = Auto | Fixed(value: real)

  /** The two flex layouts; a style without one stacks its children. */
  datatype Layout = Row | Col

  /** Per-axis amounts: padding and margin. */
  datatype Vec3 = Vec3(x: real, y: real, z: real)

  datatype Wall = N | E | S | W

  datatype OpeningKind = Door | Window

  /** A door or window cut into one wall of a room. */
  datatype Opening = Opening(kind: OpeningKind, wall: Wall, offset: real, w: real, h: real, sill: real)

  /** The typed style of a node; `raw` is the merged style map it was decoded from. */
  datatype ResolvedStyle = ResolvedStyle(
    w: Dim, d: Dim, h: Dim,
    layout: Option<Layout>,
    gap: real,
    padding: Vec3,
    margin: Vec3,
    basis: Option<real>,
    grow: Option<real>,
    shrink: Option<real>,
    t: real,
    openings: seq<Opening>,
    raw: StyleMap,
    declaredKind: Option<string>)

  datatype Kind = Container | Room | Leaf

  /** Width (x), depth (z) and height (y) of a box. */
  datatype Size3 = Size3(w: real, d: real, h: real)

  /** A resolved node (HSMLNode); `measured` is filled in by the measurer. */
  datatype Node = Node(
    name: string,
    path: string,
    children: seq<Node>,
    content: Option<Content>,
    style: ResolvedStyle,
    kind: Kind,
    measured: Option<Size3>)

  datatype Level = Error | Warn

  /**
   * What an issue says.  `NotFinite` carries the label of the field ("gap",
   * "padding", "wall thickness", "basis", "grow", "shrink"), `Overflow` the
   * amount by which the children overflow, and `ParseFailed` the error a
   * parse stopped at; the rest stand for the validator's fixed messages.
   */
  datatype Message =
    | InvalidDims
    | WidthNotPositive | DepthNotPositive | HeightNotPositive
    | NotFinite(field: string)
    | OffsetNegative | ExceedsWall | SillNegative | ExceedsHeight
    | Overflow(amount: real)
    | ParseFailed(error: ParseError)

  /** A validation issue, reported against the path of the node it concerns. */
  datatype Issue = Issue(level: Level, path: string, message: Message)
}
