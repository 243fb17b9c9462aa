/**
 * The HSML text parser (src/hsml/parseHSML.ts).
 *
 * HSML is line oriented: every non-blank line that is not a `#` comment is
 * either a style rule `selector { key:value ... }` or a node declaration
 * `a/b/c[: content] [{ key:value ... }]`.  A thrown `Error` of the source is
 * an `Err` of `Result` here; the first one ends the parse.
 */
module Parser {
  import opened Base
  import opened Strings
  import opened Scanner

  // ---------------------------------------------------------------- data

  /** What follows the `:` of a node declaration. */
  datatype Content = Text(value: string) | Url(value: string) | Style(value: string)

  /** An argument of a call value: a number, a string or a bare identifier. */
  datatype Arg = ArgNum(num: real) | ArgStr(str: string) | ArgIdent(ident: string)

  datatype StyleValue =
    | Num(num: real)
    | Str(str: string)
    | Ident(ident: string)
    | Call(name: string, args: seq<Arg>)
    | List(items: seq<StyleValue>)

  type StyleMap = map<string, StyleValue>

  datatype NodeDecl = NodeDecl(path: seq<string>, content: Option<Content>, inlineStyle: Option<StyleMap>, sourceLine: nat)

  datatype Selector = ByName(a: string) | ByPath(a: string) | Desc(a: string, b: string)

  datatype StyleRule = StyleRule(selector: Selector, style: StyleMap, sourceLine: nat)

  datatype ParseResult = ParseResult(nodes: seq<NodeDecl>, rules: seq<StyleRule>)

  /** The three messages the parser throws. */
  datatype ParseError = ExpectedString(got: string) | InvalidWrapper(name: string) | InvalidList

  // ------------------------------------------------------ small helpers

  /** `splitOnce(s, sep)`: the text before and after the first `sep`; all of `s` and "" when there is none. */
  function SplitOnce(s: string, sep: char): (r: (string, string)) {
    var k := IndexOf(s, sep);
    if k < 0 then (s, []) else (s[..k], s[k + 1..])
  }

  /** The two halves of splitOnce put back around the separator give the text back. */
  lemma SplitOnceParts(s: string, sep: char)
    ensures var r := SplitOnce(s, sep);
      && (sep in s ==> s == r.0 + [sep] + r.1 && sep !in r.0)
      && (sep !in s ==> r == (s, []))
  {
    var k := IndexOf(s, sep);
    if k >= 0 {
      SeqSplitAt(s, k);
    }
  }

  /** `s.slice(0, -1)` */
  function DropLast(s: string): (r: string)
    ensures s != [] ==> s == r + [s[|s| - 1]]
    ensures s == [] ==> r == []
  {
    if s == [] then [] else s[..|s| - 1]
  }

  /** `s.slice(1, -1)` */
  function Inner(s: string): (r: string)
    ensures |s| >= 2 ==> s == [s[0]] + r + [s[|s| - 1]]
    ensures |s| < 2 ==> r == []
  {
    if |s| < 2 then [] else s[1..|s| - 1]
  }

  // ----------------------------------------------------------- strings

  /** `s.replace(/ab/g, [rep])` for a two-character pattern `ab`. */
  function ReplacePair(s: string, a: char, b: char, rep: char): (r: string)
    ensures |r| <= |s|
    decreases |s|
  {
    if |s| >= 2 && s[0] == a && s[1] == b then [rep] + ReplacePair(s[2..], a, b, rep)
    else if s == [] then []
    else [s[0]] + ReplacePair(s[1..], a, b, rep)
  }

  /** parseString's decoding: `\n`, then `\"`, then `\\` replaced, each over the whole text in turn. */
  function Unescape(s: string): string {
    ReplacePair(ReplacePair(ReplacePair(s, '\\', 'n', '\n'), '\\', '"', '"'), '\\', '\\', '\\')
  }

  /** The escaping a writer of HSML applies: `\\` for a backslash, `\"` for a quote, `\n` for a line feed. */
  function Escape(x: string): string {
    if x == [] then []
    else
      var c := x[0];
      (if c == '\\' then "\\\\" else if c == '"' then "\\\"" else if c == '\n' then "\\n" else [c])
      + Escape(x[1..])
  }

  /** `parseString(s)`: the trimmed text must start and end with a quote; the text between them is unescaped. */
  function ParseString(s: string): (r: Result<string, ParseError>)
    ensures r.Err? ==> r.error == ExpectedString(s)
  {
    var t := Trim(s);
    if !StartsWith(t, "\"") || !EndsWith(t, "\"") then Err(ExpectedString(s))
    else Ok(Unescape(Inner(t)))
  }

  /** `parseFuncStringArg(s, name)`: `name(` ... `)` around a quoted string. */
  function ParseFuncStringArg(s: string, name: string): (r: Result<string, ParseError>)
    ensures r.Err? ==> r.error == InvalidWrapper(name) || r.error.ExpectedString?
  {
    var prefix := name + "(";
    if !StartsWith(s, prefix) || !EndsWith(s, ")") then Err(InvalidWrapper(name))
    else
      assert s[|prefix| - 1] == '(' by { assert s[..|prefix|][|prefix| - 1] == prefix[|prefix| - 1]; }
      assert s[|s| - 1] == ')' by { assert s[|s| - 1..][0] == ')'; }
      ParseString(Trim(s[|prefix|..|s| - 1]))
  }

  /** `parseContent(s)`: a quoted text, `url("...")`, `style("...")`, or the bare text itself. */
  function ParseContent(s: string): (r: Result<Content, ParseError>)
  {
    if StartsWith(s, "\"") then var v :- ParseString(s); Ok(Text(v))
    else if StartsWith(s, "url(") then var v :- ParseFuncStringArg(s, "url"); Ok(Url(v))
    else if StartsWith(s, "style(") then var v :- ParseFuncStringArg(s, "style"); Ok(Style(v))
    else Ok(Text(s))
  }

  // ---------------------------------------------------------- selectors

  /** `parseSelector(s)`: one token is a name (or a path when it holds `/`), two tokens a descendant pair. */
  function ParseSelector(s: string): Selector {
    var parts := Words(Trim(s));
    if |parts| == 1 then (if '/' in parts[0] then ByPath(parts[0]) else ByName(parts[0]))
    else if |parts| == 2 then Desc(parts[0], parts[1])
    else ByName(Trim(s))
  }

  // ------------------------------------------------------------- values

  predicate IsNameStart(c: char) {
    IsLetter(c) || c == '_'
  }

  predicate IsNameChar(c: char) {
    IsLetter(c) || IsDigit(c) || c == '_' || c == '-'
  }

  /** `[A-Za-z_][A-Za-z0-9_-]*` */
  predicate IsCallName(n: string) {
    n != [] && IsNameStart(n[0]) && forall i :: 0 < i < |n| ==> IsNameChar(n[i])
  }

  /** What the regular-expression `.` matches on every character. */
  predicate NoLineTerminator(s: string) {
    forall i :: 0 <= i < |s| ==> !IsLineTerminator(s[i])
  }

  /** The end of the run of name characters that starts at `i`. */
  function NameEnd(t: string, i: nat): (k: nat)
    requires i <= |t|
    ensures i <= k <= |t| && (k == |t| || !IsNameChar(t[k]))
    ensures forall j :: i <= j < k ==> IsNameChar(t[j])
    decreases |t| - i
  {
    if i == |t| || !IsNameChar(t[i]) then i else NameEnd(t, i + 1)
  }

  /** The match of `^([A-Za-z_][A-Za-z0-9_-]*)\((.*)\)$`: the call name and the raw argument text. */
  function CallShape(t: string): (r: Option<(string, string)>)
    ensures r.Some? ==> IsCallName(r.value.0) && NoLineTerminator(r.value.1)
    ensures r.Some? ==> t == r.value.0 + "(" + r.value.1 + ")"
  {
    if t == [] || !IsNameStart(t[0]) then None
    else
      var n := NameEnd(t, 1);
      if n < |t| - 1 && t[n] == '(' && t[|t| - 1] == ')' && NoLineTerminator(t[n + 1..|t| - 1]) then
        assert t == t[..n] + "(" + t[n + 1..|t| - 1] + ")";
        Some((t[..n], t[n + 1..|t| - 1]))
      else None
  }

  /** `parseArg(a)` */
  function ParseArg(a: string): (r: Result<Arg, ParseError>)
    ensures r.Err? ==> Trim(a) != [] && Trim(a)[0] == '"'
  {
    var t := Trim(a);
    if t == [] then Ok(ArgIdent([]))
    else if t[0] == '"' then var v :- ParseString(t); Ok(ArgStr(v))
    else if IsNumberLiteral(t) then Ok(ArgNum(NumberValue(t)))
    else Ok(ArgIdent(t))
  }

  /** `argsRaw.map(parseArg)`: the first error wins. */
  function ParseArgs(ps: seq<string>): (r: Result<seq<Arg>, ParseError>)
    ensures r.Ok? ==> |r.value| == |ps| && forall i :: 0 <= i < |ps| ==> ParseArg(ps[i]) == Ok(r.value[i])
  {
    if ps == [] then Ok([])
    else
      var a :- ParseArg(ps[0]);
      var rest :- ParseArgs(ps[1..]);
      assert forall i :: 1 <= i < |ps| ==> ps[i] == ps[1..][i - 1];
      Ok([a] + rest)
  }

  /** `parseValue(s)` */
  function ParseValue(s: string): (r: Result<StyleValue, ParseError>)
    decreases |s|, 2, 0
  {
    var t := Trim(s);
    if t == [] then Ok(Ident([]))
    else if t[0] == '"' then var v :- ParseString(t); Ok(Str(v))
    else if t[0] == '[' then ParseList(t)
    else if IsNumberLiteral(t) then Ok(Num(NumberValue(t)))
    else match CallShape(t)
      case Some(parts) =>
        var args :- ParseArgs(TopLevelPieces(parts.1, Comma));
        Ok(Call(parts.0, args))
      case None => Ok(Ident(t))
  }

  /** `parseList(t)`: `[` ... `]` around comma-separated values. */
  function ParseList(t: string): (r: Result<StyleValue, ParseError>)
    ensures r.Ok? ==> r.value.List?
    decreases |t|, 1, 0
  {
    if !StartsWith(t, "[") || !EndsWith(t, "]") then Err(InvalidList)
    else
      var inner := Trim(Inner(t));
      if inner == [] then Ok(List([]))
      else
        var pieces := TopLevelPieces(inner, Comma);
        PiecesTrimmed(inner, Comma);
        var items :- ParseItems(pieces, |t|);
        Ok(List(items))
  }

  /** `pieces.map(parseValue)`: the first error wins. */
  function ParseItems(ps: seq<string>, bound: nat): (r: Result<seq<StyleValue>, ParseError>)
    requires forall p :: p in ps ==> |p| < bound
    ensures r.Ok? ==> |r.value| == |ps|
    decreases bound, 0, |ps|
  {
    if ps == [] then Ok([])
    else
      var v :- ParseValue(ps[0]);
      var rest :- ParseItems(ps[1..], bound);
      Ok([v] + rest)
  }

  // ---------------------------------------------------------- style bodies

  function PairKey(p: string): string {
    Trim(SplitOnce(p, ':').0)
  }

  function PairValue(p: string): string {
    Trim(SplitOnce(p, ':').1)
  }

  /** The map the pair loop of parseStyleBody builds from `acc` over `pairs`. */
  function StyleFromPairs(pairs: seq<string>, acc: StyleMap): Result<StyleMap, ParseError> {
    if pairs == [] then Ok(acc)
    else if PairKey(pairs[0]) == [] then StyleFromPairs(pairs[1..], acc)
    else
      var v :- ParseValue(PairValue(pairs[0]));
      StyleFromPairs(pairs[1..], acc[PairKey(pairs[0]) := v])
  }

  /** The pair at `i` has no key: the fold skips it. */
  lemma StyleSkip(pairs: seq<string>, i: nat, acc: StyleMap)
    requires i < |pairs| && PairKey(pairs[i]) == []
    ensures StyleFromPairs(pairs[i..], acc) == StyleFromPairs(pairs[i + 1..], acc)
  {
    assert pairs[i..][1..] == pairs[i + 1..] && pairs[i..][0] == pairs[i];
  }

  /** The value of the pair at `i` does not parse: so does the whole body. */
  lemma StyleFail(pairs: seq<string>, i: nat, acc: StyleMap, e: ParseError)
    requires i < |pairs| && PairKey(pairs[i]) != [] && ParseValue(PairValue(pairs[i])) == Err(e)
    ensures StyleFromPairs(pairs[i..], acc) == Err(e)
  {
    assert pairs[i..][0] == pairs[i];
  }

  /** The pair at `i` parses to `v`: the fold goes on with its key set to `v`. */
  lemma StyleAdd(pairs: seq<string>, i: nat, acc: StyleMap, v: StyleValue)
    requires i < |pairs| && PairKey(pairs[i]) != [] && ParseValue(PairValue(pairs[i])) == Ok(v)
    ensures StyleFromPairs(pairs[i..], acc) == StyleFromPairs(pairs[i + 1..], acc[PairKey(pairs[i]) := v])
  {
    var p := pairs[i..];
    assert p[1..] == pairs[i + 1..] && p[0] == pairs[i];
    StyleAddHead(p, acc, v);
  }

  lemma StyleAddHead(p: seq<string>, acc: StyleMap, v: StyleValue)
    requires p != [] && PairKey(p[0]) != [] && ParseValue(PairValue(p[0])) == Ok(v)
    ensures StyleFromPairs(p, acc) == StyleFromPairs(p[1..], acc[PairKey(p[0]) := v])
  {
  }

  /** `parseStyleBody(body)` as a function of its input. */
  function StyleBody(body: string): Result<StyleMap, ParseError> {
    StyleFromPairs(TopLevelPieces(body, Blank), map[])
  }

  /** `const [k, v] = splitOnce(p, ":")`, both halves trimmed. */
  method SplitPair(p: string) returns (key: string, valStr: string)
    ensures key == PairKey(p) && valStr == PairValue(p)
  {
    var kv := SplitOnce(p, ':');
    key := Trim(kv.0);
    valStr := Trim(kv.1);
  }

  /** `parseStyleBody(body)`: split into top-level pairs, then `key:value` each; a later key overwrites an earlier one. */
  method ParseStyleBody(body: string) returns (r: Result<StyleMap, ParseError>)
    ensures r == StyleBody(body)
  {
    var pairs := SplitTopLevel(body, Blank);
    var style: StyleMap := map[];
    for i := 0 to |pairs|
      invariant StyleFromPairs(pairs[i..], style) == StyleBody(body)
    {
      var key, valStr := SplitPair(pairs[i]);
      if key == [] {
        StyleSkip(pairs, i, style);
        continue;
      }
      var v := ParseValue(valStr);
      if v.Err? {
        StyleFail(pairs, i, style, v.error);
        return Err(v.error);
      }
      StyleAdd(pairs, i, style, v.value);
      style := style[key := v.value];
    }
    assert pairs[|pairs|..] == [];
    return Ok(style);
  }

  // --------------------------------------------------------------- lines

  /** `hasBrace && !hasColon`: the shape of a rule line. */
  predicate IsRuleLine(line: string) {
    '{' in line && EndsWith(line, "}") && ':' !in line
  }

  /** A trimmed line that is neither empty nor a comment. */
  predicate IsItemLine(line: string) {
    line != [] && line[0] != '#'
  }

  /** `parsePathPrefix(line)`: cut before the first `:` or `{`, whichever comes first. */
  function PathPrefix(line: string): (r: (string, string))
  {
    var colon := IndexOf(line, ':');
    var brace := IndexOf(line, '{');
    var cut := if colon >= 0 && brace >= 0 then (if colon < brace then colon else brace)
               else (if colon > brace then colon else brace);
    if cut < 0 then (Trim(line), [])
    else (Trim(line[..cut]), Trim(line[cut..]))
  }

  /** The inline style block of a node line, when the rest of it is `{...}` or ends with a `{...}`. */
  function InlineStyle(r: string): Result<Option<StyleMap>, ParseError> {
    if StartsWith(r, "{") && EndsWith(r, "}") then
      var m :- StyleBody(Trim(Inner(r)));
      Ok(Some(m))
    else if |r| > 0 && IndexOf(r, '{') >= 0 && EndsWith(r, "}") then
      var b := IndexOf(r, '{');
      assert r[|r| - 1] == '}' by { assert r[|r| - 1..][0] == '}'; }
      var m :- StyleBody(Trim(r[b + 1..|r| - 1]));
      Ok(Some(m))
    else Ok(None)
  }

  function ParseRule(line: string, lineNo: nat): (r: Result<StyleRule, ParseError>)
    ensures r.Ok? ==> r.value.sourceLine == lineNo
  {
    var parts := SplitOnce(line, '{');
    var style :- StyleBody(Trim(DropLast(parts.1)));
    Ok(StyleRule(ParseSelector(Trim(parts.0)), style, lineNo))
  }

  function ParseDecl(line: string, lineNo: nat): (r: Result<NodeDecl, ParseError>)
    ensures r.Ok? ==> r.value.sourceLine == lineNo
  {
    var pre := PathPrefix(line);
    var path := NonEmptyPieces(pre.0, '/');
    var r := Trim(pre.1);
    if StartsWith(r, ":") then
      var split := ContentSplit(Trim(r[1..]));
      var content :- ParseContent(Trim(split.0));
      var inline :- InlineStyle(Trim(split.1));
      Ok(NodeDecl(path, Some(content), inline, lineNo))
    else
      var inline :- InlineStyle(r);
      Ok(NodeDecl(path, None, inline, lineNo))
  }

  datatype Item = Decl(decl: NodeDecl) | Rule(rule: StyleRule)

  /** One pass of the line loop: nothing for a blank or comment line, else a rule or a declaration. */
  function ParseLine(raw: string, lineNo: nat): (r: Result<Option<Item>, ParseError>)
    ensures r.Ok? ==> (r.value.None? <==> !IsItemLine(Trim(raw)))
    ensures r.Ok? && r.value.Some? && r.value.value.Rule? ==>
      IsRuleLine(Trim(raw)) && r.value.value.rule.sourceLine == lineNo
    ensures r.Ok? && r.value.Some? && r.value.value.Decl? ==>
      IsItemLine(Trim(raw)) && !IsRuleLine(Trim(raw)) && r.value.value.decl.sourceLine == lineNo
  {
    var line := Trim(raw);
    if !IsItemLine(line) then Ok(None)
    else if IsRuleLine(line) then var rule :- ParseRule(line, lineNo); Ok(Some(Rule(rule)))
    else var decl :- ParseDecl(line, lineNo); Ok(Some(Decl(decl)))
  }

  function AddItem(acc: ParseResult, item: Option<Item>): ParseResult {
    match item
    case None => acc
    case Some(Decl(d)) => acc.(nodes := acc.nodes + [d])
    case Some(Rule(u)) => acc.(rules := acc.rules + [u])
  }

  /** The line loop from line `from` (0-based) on; lines are numbered from 1. */
  function ParseLines(lines: seq<string>, from: nat, acc: ParseResult): Result<ParseResult, ParseError>
    requires from <= |lines|
    decreases |lines| - from
  {
    if from == |lines| then Ok(acc)
    else
      var item :- ParseLine(lines[from], from + 1);
      ParseLines(lines, from + 1, AddItem(acc, item))
  }

  /** `parseHSML(src)` as a function of its input. */
  function Parse(src: string): Result<ParseResult, ParseError> {
    ParseLines(SplitLines(src), 0, ParseResult([], []))
  }

  /** The inline-style block of parseHSML: `{...}` alone, or text ending in a `{...}` block. */
  method ParseInlineStyle(r: string) returns (res: Result<Option<StyleMap>, ParseError>)
    ensures res == InlineStyle(r)
  {
    var inlineStyle: Option<StyleMap> := None;
    if StartsWith(r, "{") && EndsWith(r, "}") {
      var s := ParseStyleBody(Trim(Inner(r)));
      if s.Err? {
        return Err(s.error);
      }
      inlineStyle := Some(s.value);
    } else if |r| > 0 {
      var braceIdx := IndexOf(r, '{');
      if braceIdx >= 0 && EndsWith(r, "}") {
        assert r[|r| - 1] == '}' by { assert r[|r| - 1..][0] == '}'; }
        var s := ParseStyleBody(Trim(r[braceIdx + 1..|r| - 1]));
        if s.Err? {
          return Err(s.error);
        }
        inlineStyle := Some(s.value);
      }
    }
    return Ok(inlineStyle);
  }

  /** One step of the line loop for a line that parses to `item`. */
  lemma ParseLinesOk(lines: seq<string>, i: nat, acc: ParseResult, item: Option<Item>)
    requires i < |lines| && ParseLine(lines[i], i + 1) == Ok(item)
    ensures ParseLines(lines, i, acc) == ParseLines(lines, i + 1, AddItem(acc, item))
  {
  }

  lemma ParseLinesRule(lines: seq<string>, i: nat, nodes: seq<NodeDecl>, rules: seq<StyleRule>, rule: StyleRule)
    requires i < |lines| && ParseLine(lines[i], i + 1) == Ok(Some(Rule(rule)))
    ensures ParseLines(lines, i, ParseResult(nodes, rules)) == ParseLines(lines, i + 1, ParseResult(nodes, rules + [rule]))
  {
    ParseLinesOk(lines, i, ParseResult(nodes, rules), Some(Rule(rule)));
  }

  lemma ParseLinesDecl(lines: seq<string>, i: nat, nodes: seq<NodeDecl>, rules: seq<StyleRule>, decl: NodeDecl)
    requires i < |lines| && ParseLine(lines[i], i + 1) == Ok(Some(Decl(decl)))
    ensures ParseLines(lines, i, ParseResult(nodes, rules)) == ParseLines(lines, i + 1, ParseResult(nodes + [decl], rules))
  {
    ParseLinesOk(lines, i, ParseResult(nodes, rules), Some(Decl(decl)));
  }

  /** The line loop stops at the first line that fails. */
  lemma ParseLinesErr(lines: seq<string>, i: nat, acc: ParseResult, e: ParseError)
    requires i < |lines| && ParseLine(lines[i], i + 1) == Err(e)
    ensures ParseLines(lines, i, acc) == Err(e)
  {
  }

  /** `parseHSML(src)` */
  method ParseHSML(src: string) returns (res: Result<ParseResult, ParseError>)
    ensures res == Parse(src)
  {
    var lines := SplitLines(src);
    var nodes: seq<NodeDecl> := [];
    var rules: seq<StyleRule> := [];
    for i := 0 to |lines|
      invariant ParseLines(lines, i, ParseResult(nodes, rules)) == Parse(src)
    {
      var line := Trim(lines[i]);
      if line == [] || line[0] == '#' {
        assert ParseLine(lines[i], i + 1) == Ok(None);
        ParseLinesOk(lines, i, ParseResult(nodes, rules), None);
        continue;
      }
      if '{' in line && EndsWith(line, "}") && ':' !in line {
        var parts := SplitOnce(line, '{');
        var style := ParseStyleBody(Trim(DropLast(parts.1)));
        if style.Err? {
          assert ParseLine(lines[i], i + 1) == Err(style.error);
          ParseLinesErr(lines, i, ParseResult(nodes, rules), style.error);
          return Err(style.error);
        }
        var rule := StyleRule(ParseSelector(Trim(parts.0)), style.value, i + 1);
        assert ParseLine(lines[i], i + 1) == Ok(Some(Rule(rule)));
        ParseLinesRule(lines, i, nodes, rules, rule);
        rules := rules + [rule];
        continue;
      }
      var pre := PathPrefix(line);
      var path := NonEmptyPieces(pre.0, '/');
      var content: Option<Content> := None;
      var inlineStyle: Option<StyleMap> := None;
      var r := Trim(pre.1);
      if StartsWith(r, ":") {
        r := Trim(r[1..]);
        var contentPart, afterContent := SplitContentAndInlineStyle(r);
        var c := ParseContent(Trim(contentPart));
        if c.Err? {
          assert ParseDecl(line, i + 1) == Err(c.error);
          assert ParseLine(lines[i], i + 1) == Err(c.error);
          ParseLinesErr(lines, i, ParseResult(nodes, rules), c.error);
          return Err(c.error);
        }
        content := Some(c.value);
        r := Trim(afterContent);
      }
      var inl := ParseInlineStyle(r);
      if inl.Err? {
        assert ParseDecl(line, i + 1) == Err(inl.error);
        assert ParseLine(lines[i], i + 1) == Err(inl.error);
        ParseLinesErr(lines, i, ParseResult(nodes, rules), inl.error);
        return Err(inl.error);
      }
      inlineStyle := inl.value;
      var decl := NodeDecl(path, content, inlineStyle, i + 1);
      assert ParseDecl(line, i + 1) == Ok(decl);
      assert ParseLine(lines[i], i + 1) == Ok(Some(Decl(decl)));
      ParseLinesDecl(lines, i, nodes, rules, decl);
      nodes := nodes + [decl];
    }
    return Ok(ParseResult(nodes, rules));
  }
}
