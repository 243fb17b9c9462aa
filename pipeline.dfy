/**
 * The compile pipeline as the application runs it (`applyChanges` in
 * src/app/App.tsx): parse, build the tree, resolve styles, measure,
 * validate, and lay out only when validation found no error.  A parse error
 * aborts the run with a single error issue at "root" and no layout.
 *
 * `Compiled` is the specification; `ApplyChanges` runs the stages' methods
 * in the source's order and is proved equal to it.
 */
module Pipeline {
  import opened Base
  import opened Parser
  import opened TreeBuilder
  import opened Types
  import opened Resolver
  import Measure
  import opened Validator
  import opened Layout
  import LayoutFacts
  import ValidatorFacts

  /** What a run leaves behind: the issues shown and the layout, if one was made. */
  datatype Outcome = Outcome(issues: seq<Issue>, layout: Option<Box>)

  /** `validation.some((v) => v.level === 'error')`. */
  predicate HasError(issues: seq<Issue>) {
    exists i :: 0 <= i < |issues| && issues[i].level == Error
  }

  /** The resolved and measured tree of a parse. */
  function MeasuredTree(parsed: ParseResult): Node {
    Measure.Measure(Resolve(Tree(parsed.nodes), parsed.rules, []))
  }

  /** The outcome of one run on the editor text `src`. */
  function Compiled(src: string, fin: real -> bool): Outcome {
    match Parse(src)
    case Err(e) => Failed(e)
    case Ok(parsed) =>
      var m := MeasuredTree(parsed);
      LayoutFacts.MeasuredTreeLayable(Resolve(Tree(parsed.nodes), parsed.rules, []));
      Decide(Issues(m, fin), m)
  }

  /** The outcome of a run whose parse failed: its error at "root", and no layout. */
  function Failed(e: ParseError): (r: Outcome)
    ensures HasError(r.issues) && r.layout.None?
  {
    var r := Outcome([Issue(Error, "root", ParseFailed(e))], None);
    assert r.issues[0].level == Error;
    r
  }

  /** The validator's issues, and the layout of `m` only when no issue is an error. */
  function Decide(issues: seq<Issue>, m: Node): (r: Outcome)
    requires Layable(m)
    ensures r.issues == issues
    ensures r.layout.Some? <==> !HasError(issues)
    ensures r.layout.Some? ==> r.layout.value == LayoutOf(m, Origin0, NoOverride)
  {
    if HasError(issues) then Outcome(issues, None) else Outcome(issues, Some(LayoutOf(m, Origin0, NoOverride)))
  }

  /** `applyChanges(source)`: the stages in order, the layout skipped on any error. */
  method ApplyChanges(src: string, fin: real -> bool) returns (out: Outcome)
    ensures out == Compiled(src, fin)
  {
    var parsed := ParseHSML(src);
    if parsed.Err? {
      return Failed(parsed.error);
    }
    var tree := BuildTree(parsed.value.nodes);
    var resolved := ResolveStyles(tree, parsed.value.rules);
    var measured := Measure.Measure(resolved);
    ValidatorFacts.MeasuredTreeCheckable(resolved);
    var validation := ValidateHSML(measured, fin);
    var hasError := exists i :: 0 <= i < |validation| && validation[i].level == Error;
    if hasError {
      return Outcome(validation, None);
    }
    LayoutFacts.MeasuredTreeLayable(resolved);
    var layout := LayoutTree(measured, Origin0, NoOverride);
    out := Outcome(validation, Some(layout));
  }

  // ------------------------------------------------------- properties

  /** A run produces a layout exactly when it reports no error: warnings never block layout. */
  lemma LayoutIffNoError(src: string, fin: real -> bool)
    ensures Compiled(src, fin).layout.Some? <==> !HasError(Compiled(src, fin).issues)
  {
  }

  /** A parse error is the only issue of its run, reported at "root", and there is no layout. */
  lemma ParseErrorAborts(src: string, fin: real -> bool)
    requires Parse(src).Err?
    ensures Compiled(src, fin) == Outcome([Issue(Error, "root", ParseFailed(Parse(src).error))], None)
  {
  }

  /**
   * After a successful parse the issues are the validator's, over the
   * resolved and measured tree, and a layout made is the layout of that tree
   * from the origin at its measured size.
   */
  lemma ParsedRun(src: string, fin: real -> bool)
    requires Parse(src).Ok?
    ensures var m := MeasuredTree(Parse(src).value);
      Compiled(src, fin).issues == Issues(m, fin) &&
      (Compiled(src, fin).layout.Some? ==> Layable(m) && Compiled(src, fin).layout.value == LayoutOf(m, Origin0, NoOverride))
  {
    LayoutFacts.MeasuredTreeLayable(Resolve(Tree(Parse(src).value.nodes), Parse(src).value.rules, []));
  }
}
