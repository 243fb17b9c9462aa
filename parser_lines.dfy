/**
 * Line-level properties of parseHSML (src/hsml/parseHSML.ts:36-106): which
 * lines yield what, with which line numbers, where a parse can fail, and how
 * a node path is cut out of a declaration line.
 */
module ParserLines {
  import opened Base
  import opened Strings
  import opened Scanner
  import opened Parser
  import opened ParserFacts

  // ------------------------------------------------------ line numbering

  function DeclLineNos(ds: seq<NodeDecl>): seq<nat> {
    if ds == [] then [] else [ds[0].sourceLine] + DeclLineNos(ds[1..])
  }

  function RuleLineNos(us: seq<StyleRule>): seq<nat> {
    if us == [] then [] else [us[0].sourceLine] + RuleLineNos(us[1..])
  }

  lemma {:induction false} DeclLineNosAppend(ds: seq<NodeDecl>, d: NodeDecl)
    ensures DeclLineNos(ds + [d]) == DeclLineNos(ds) + [d.sourceLine]
  {
    if ds != [] {
      assert (ds + [d])[1..] == ds[1..] + [d];
      DeclLineNosAppend(ds[1..], d);
    } else {
      assert ds + [d] == [d];
    }
  }

  lemma {:induction false} RuleLineNosAppend(us: seq<StyleRule>, u: StyleRule)
    ensures RuleLineNos(us + [u]) == RuleLineNos(us) + [u.sourceLine]
  {
    if us != [] {
      assert (us + [u])[1..] == us[1..] + [u];
      RuleLineNosAppend(us[1..], u);
    } else {
      assert us + [u] == [u];
    }
  }

  /** `[lineNo]` when `raw` is a declaration line, else nothing. */
  function DeclLineNo(raw: string, lineNo: nat): seq<nat> {
    var t := Trim(raw);
    if IsItemLine(t) && !IsRuleLine(t) then [lineNo] else []
  }

  /** `[lineNo]` when `raw` is a rule line, else nothing. */
  function RuleLineNo(raw: string, lineNo: nat): seq<nat> {
    var t := Trim(raw);
    if IsItemLine(t) && IsRuleLine(t) then [lineNo] else []
  }

  /** The 1-based numbers, from line `from` on, of the lines that are declarations. */
  function DeclLines(lines: seq<string>, from: nat): seq<nat>
    requires from <= |lines|
    decreases |lines| - from
  {
    if from == |lines| then [] else DeclLineNo(lines[from], from + 1) + DeclLines(lines, from + 1)
  }

  /** The 1-based numbers, from line `from` on, of the lines that are rules. */
  function RuleLines(lines: seq<string>, from: nat): seq<nat>
    requires from <= |lines|
    decreases |lines| - from
  {
    if from == |lines| then [] else RuleLineNo(lines[from], from + 1) + RuleLines(lines, from + 1)
  }

  // ---------------------------------------------- the loop over line results

  /** What `parse` makes of each line from `from` on, in order, numbering lines from 1. */
  function Results(parse: (string, nat) -> Result<Option<Item>, ParseError>, lines: seq<string>, from: nat):
    (rs: seq<Result<Option<Item>, ParseError>>)
    requires from <= |lines|
    ensures |rs| == |lines| - from
    decreases |lines| - from
  {
    if from == |lines| then [] else [parse(lines[from], from + 1)] + Results(parse, lines, from + 1)
  }

  /** The line loop over results already computed: the first error stops it. */
  function Collect(rs: seq<Result<Option<Item>, ParseError>>, acc: ParseResult): Result<ParseResult, ParseError> {
    if rs == [] then Ok(acc)
    else
      match rs[0]
      case Err(e) => Err(e)
      case Ok(item) => Collect(rs[1..], AddItem(acc, item))
  }

  /** The line loop is the collection of the line results. */
  lemma {:induction false} LinesCollect(lines: seq<string>, from: nat, acc: ParseResult)
    requires from <= |lines|
    ensures ParseLines(lines, from, acc) == Collect(Results(ParseLine, lines, from), acc)
    decreases |lines| - from
  {
    if from < |lines| {
      var rs := Results(ParseLine, lines, from);
      var r := ParseLine(lines[from], from + 1);
      assert rs[0] == r && rs[1..] == Results(ParseLine, lines, from + 1);
      match r
      case Err(e) =>
        ParseLinesErr(lines, from, acc, e);
      case Ok(item) =>
        ParseLinesOk(lines, from, acc, item);
        LinesCollect(lines, from + 1, AddItem(acc, item));
    }
  }

  lemma {:induction false} CollectOkIff(rs: seq<Result<Option<Item>, ParseError>>, acc: ParseResult)
    ensures Collect(rs, acc).Ok? <==> forall i :: 0 <= i < |rs| ==> rs[i].Ok?
  {
    if rs != [] && rs[0].Ok? {
      CollectOkIff(rs[1..], AddItem(acc, rs[0].value));
      assert forall i :: 1 <= i < |rs| ==> rs[i] == rs[1..][i - 1];
    }
  }

  /** The line numbers carried by the declarations among `rs`, in order. */
  function DeclNos(rs: seq<Result<Option<Item>, ParseError>>): seq<nat> {
    if rs == [] then []
    else
      (match rs[0] case Ok(Some(Decl(d))) => [d.sourceLine] case _ => []) + DeclNos(rs[1..])
  }

  /** The line numbers carried by the rules among `rs`, in order. */
  function RuleNos(rs: seq<Result<Option<Item>, ParseError>>): seq<nat> {
    if rs == [] then []
    else
      (match rs[0] case Ok(Some(Rule(u))) => [u.sourceLine] case _ => []) + RuleNos(rs[1..])
  }

  lemma {:induction false} CollectNumbering(rs: seq<Result<Option<Item>, ParseError>>, acc: ParseResult, res: ParseResult)
    requires Collect(rs, acc) == Ok(res)
    ensures DeclLineNos(res.nodes) == DeclLineNos(acc.nodes) + DeclNos(rs)
    ensures RuleLineNos(res.rules) == RuleLineNos(acc.rules) + RuleNos(rs)
  {
    if rs != [] {
      var item := rs[0].value;
      CollectNumbering(rs[1..], AddItem(acc, item), res);
      match item
      case None =>
      case Some(Decl(d)) =>
        DeclLineNosAppend(acc.nodes, d);
      case Some(Rule(u)) =>
        RuleLineNosAppend(acc.rules, u);
    }
  }

  /** What a successful line result says about its line: nothing for a blank or comment line,
      a rule for a rule line, a declaration otherwise, each with the line's number. */
  predicate Shaped(r: Result<Option<Item>, ParseError>, raw: string, lineNo: nat) {
    r.Ok? &&
    (r.value.None? <==> !IsItemLine(Trim(raw))) &&
    (r.value.Some? && r.value.value.Rule? ==> IsRuleLine(Trim(raw)) && r.value.value.rule.sourceLine == lineNo) &&
    (r.value.Some? && r.value.value.Decl? ==>
      IsItemLine(Trim(raw)) && !IsRuleLine(Trim(raw)) && r.value.value.decl.sourceLine == lineNo)
  }

  lemma ShapedNos(r: Result<Option<Item>, ParseError>, raw: string, lineNo: nat)
    requires Shaped(r, raw, lineNo)
    ensures DeclNos([r]) == DeclLineNo(raw, lineNo) && RuleNos([r]) == RuleLineNo(raw, lineNo)
  {
    var t := Trim(raw);
    NosOfOne(r, IsItemLine(t), IsRuleLine(t), lineNo);
  }

  /** One result's numbers, given only whether its line is an item line and a rule line. */
  lemma NosOfOne(r: Result<Option<Item>, ParseError>, item: bool, rule: bool, lineNo: nat)
    requires r.Ok? && (r.value.None? <==> !item)
    requires r.value.Some? && r.value.value.Rule? ==> rule && r.value.value.rule.sourceLine == lineNo
    requires r.value.Some? && r.value.value.Decl? ==> item && !rule && r.value.value.decl.sourceLine == lineNo
    ensures DeclNos([r]) == (if item && !rule then [lineNo] else [])
    ensures RuleNos([r]) == (if item && rule then [lineNo] else [])
  {
    assert [r][1..] == [];
  }

  lemma {:induction false} ShapedNumbering(parse: (string, nat) -> Result<Option<Item>, ParseError>, lines: seq<string>, from: nat)
    requires from <= |lines|
    requires forall raw: string, n: nat :: parse(raw, n).Ok? ==> Shaped(parse(raw, n), raw, n)
    requires forall i :: from <= i < |lines| ==> parse(lines[i], i + 1).Ok?
    ensures DeclNos(Results(parse, lines, from)) == DeclLines(lines, from)
    ensures RuleNos(Results(parse, lines, from)) == RuleLines(lines, from)
    decreases |lines| - from
  {
    if from < |lines| {
      var rs := Results(parse, lines, from);
      var r := parse(lines[from], from + 1);
      assert rs[0] == r && rs[1..] == Results(parse, lines, from + 1);
      ShapedNos(r, lines[from], from + 1);
      ShapedNumbering(parse, lines, from + 1);
      NosSplit(rs);
    }
  }

  lemma NosSplit(rs: seq<Result<Option<Item>, ParseError>>)
    requires rs != []
    ensures DeclNos(rs) == DeclNos([rs[0]]) + DeclNos(rs[1..])
    ensures RuleNos(rs) == RuleNos([rs[0]]) + RuleNos(rs[1..])
  {
    assert [rs[0]][1..] == [];
  }

  /** A line that parses has the shape its trimmed text announces. */
  lemma LineShaped(raw: string, lineNo: nat)
    requires ParseLine(raw, lineNo).Ok?
    ensures Shaped(ParseLine(raw, lineNo), raw, lineNo)
  {
  }

  lemma AllLinesShaped()
    ensures forall raw: string, n: nat :: ParseLine(raw, n).Ok? ==> Shaped(ParseLine(raw, n), raw, n)
  {
    forall raw: string, n: nat | ParseLine(raw, n).Ok?
      ensures Shaped(ParseLine(raw, n), raw, n)
    {
      LineShaped(raw, n);
    }
  }

  // ---------------------------------------------------------- numbering

  /** Every item line yields one node or one rule, numbered with its line, in line order. */
  lemma ParseLinesNumbering(lines: seq<string>, from: nat, acc: ParseResult, res: ParseResult)
    requires from <= |lines| && ParseLines(lines, from, acc) == Ok(res)
    ensures DeclLineNos(res.nodes) == DeclLineNos(acc.nodes) + DeclLines(lines, from)
    ensures RuleLineNos(res.rules) == RuleLineNos(acc.rules) + RuleLines(lines, from)
  {
    var rs := Results(ParseLine, lines, from);
    assert Collect(rs, acc) == Ok(res) by { LinesCollect(lines, from, acc); }
    CollectNumbering(rs, acc, res);
    ResultsOkIff(ParseLine, lines, from, acc);
    AllLinesShaped();
    ShapedNumbering(ParseLine, lines, from);
  }

  /** `parseHSML`: the nodes and rules come one per item line, each with its 1-based line number. */
  lemma ParseNumbering(src: string, res: ParseResult)
    requires Parse(src) == Ok(res)
    ensures DeclLineNos(res.nodes) == DeclLines(SplitLines(src), 0)
    ensures RuleLineNos(res.rules) == RuleLines(SplitLines(src), 0)
  {
    ParseLinesNumbering(SplitLines(src), 0, ParseResult([], []), res);
  }

  // --------------------------------------------------------------- errors

  /** The collected results are a success exactly when every line's result is. */
  lemma {:induction false} ResultsOkIff(parse: (string, nat) -> Result<Option<Item>, ParseError>, lines: seq<string>, from: nat, acc: ParseResult)
    requires from <= |lines|
    ensures Collect(Results(parse, lines, from), acc).Ok? <==> forall i :: from <= i < |lines| ==> parse(lines[i], i + 1).Ok?
    decreases |lines| - from
  {
    if from < |lines| {
      var rs := Results(parse, lines, from);
      var r := parse(lines[from], from + 1);
      assert rs[0] == r && rs[1..] == Results(parse, lines, from + 1);
      if r.Ok? {
        ResultsOkIff(parse, lines, from + 1, AddItem(acc, r.value));
        assert Collect(rs, acc) == Collect(rs[1..], AddItem(acc, r.value));
      } else {
        assert Collect(rs, acc) == Err(r.error);
      }
    }
  }

  /** The collected results fail with the error of the first line that fails. */
  lemma {:induction false} ResultsFirstError(parse: (string, nat) -> Result<Option<Item>, ParseError>, lines: seq<string>, from: nat, acc: ParseResult, i: nat)
    requires from <= i < |lines| && parse(lines[i], i + 1).Err?
    requires forall j :: from <= j < i ==> parse(lines[j], j + 1).Ok?
    ensures Collect(Results(parse, lines, from), acc) == Err(parse(lines[i], i + 1).error)
    decreases i - from
  {
    assert Results(parse, lines, from)[1..] == Results(parse, lines, from + 1);
    if from < i {
      var r := parse(lines[from], from + 1);
      assert r.Ok?;
      ResultsFirstError(parse, lines, from + 1, AddItem(acc, r.value), i);
    }
  }

  /** The line loop succeeds exactly when every remaining line parses. */
  lemma ParseLinesOkIff(lines: seq<string>, from: nat, acc: ParseResult)
    requires from <= |lines|
    ensures ParseLines(lines, from, acc).Ok? <==> forall i :: from <= i < |lines| ==> ParseLine(lines[i], i + 1).Ok?
  {
    assert ParseLines(lines, from, acc) == Collect(Results(ParseLine, lines, from), acc) by { LinesCollect(lines, from, acc); }
    ResultsOkIff(ParseLine, lines, from, acc);
  }

  /** When line `i` is the first that fails, the whole parse fails with its error. */
  lemma ParseLinesFirstError(lines: seq<string>, from: nat, acc: ParseResult, i: nat)
    requires from <= i < |lines| && ParseLine(lines[i], i + 1).Err?
    requires forall j :: from <= j < i ==> ParseLine(lines[j], j + 1).Ok?
    ensures ParseLines(lines, from, acc) == Err(ParseLine(lines[i], i + 1).error)
  {
    assert ParseLines(lines, from, acc) == Collect(Results(ParseLine, lines, from), acc) by { LinesCollect(lines, from, acc); }
    ResultsFirstError(ParseLine, lines, from, acc, i);
  }

  /** `parseHSML` succeeds exactly when every line parses. */
  lemma ParseOkIff(src: string, lines: seq<string>)
    requires lines == SplitLines(src)
    ensures Parse(src).Ok? <==> forall i :: 0 <= i < |lines| ==> ParseLine(lines[i], i + 1).Ok?
  {
    assert Parse(src) == ParseLines(lines, 0, ParseResult([], []));
    ParseLinesOkIff(lines, 0, ParseResult([], []));
  }

  /** `parseHSML` fails with the error of the first line that fails. */
  lemma ParseFirstError(src: string, i: nat)
    requires var lines := SplitLines(src);
      i < |lines| && ParseLine(lines[i], i + 1).Err? && forall j :: 0 <= j < i ==> ParseLine(lines[j], j + 1).Ok?
    ensures Parse(src) == Err(ParseLine(SplitLines(src)[i], i + 1).error)
  {
    ParseLinesFirstError(SplitLines(src), 0, ParseResult([], []), i);
  }

  // ----------------------------------------------------------- bare text

  /** No quote, bracket or parenthesis: nothing a string, list, call or wrapper could start with. */
  predicate Bare(s: string) {
    '"' !in s && '[' !in s && '(' !in s
  }

  lemma BareSlice(s: string, a: nat, b: nat)
    requires Bare(s) && a <= b <= |s|
    ensures Bare(s[a..b])
  {
    InSlice(s, a, b);
  }

  lemma BareTrim(s: string)
    requires Bare(s)
    ensures Bare(Trim(s))
  {
    TrimChars(s);
  }

  /** A plain value is a number or an identifier, never an error. */
  lemma BareValue(s: string)
    requires Bare(s)
    ensures ParseValue(s).Ok?
  {
    var t := Trim(s);
    BareTrim(s);
    if t != [] {
      assert t[0] in t;
      if IsNumberLiteral(t) {
        assert ParseValue(s) == Ok(Num(NumberValue(t)));
      } else {
        assert CallShape(t).None?;
        ValueIsIdent(s);
      }
    }
  }

  lemma BarePairValue(p: string)
    requires Bare(p)
    ensures Bare(PairValue(p))
  {
    var k := IndexOf(p, ':');
    var half := SplitOnce(p, ':').1;
    if k >= 0 {
      assert half == p[k + 1..];
      BareSlice(p, k + 1, |p|);
    } else {
      assert half == [];
    }
    BareTrim(half);
  }

  lemma {:induction false} BarePairs(pairs: seq<string>, acc: StyleMap)
    requires forall p :: p in pairs ==> Bare(p)
    ensures StyleFromPairs(pairs, acc).Ok?
    decreases |pairs|
  {
    if pairs != [] {
      assert pairs[0] in pairs;
      assert pairs[0..] == pairs;
      assert forall p :: p in pairs[1..] ==> p in pairs;
      if PairKey(pairs[0]) == [] {
        StyleSkip(pairs, 0, acc);
        BarePairs(pairs[1..], acc);
      } else {
        BarePairValue(pairs[0]);
        BareValue(PairValue(pairs[0]));
        var v := ParseValue(PairValue(pairs[0])).value;
        StyleAdd(pairs, 0, acc, v);
        BarePairs(pairs[1..], acc[PairKey(pairs[0]) := v]);
      }
    }
  }

  /** A plain style body always parses. */
  lemma BareBody(body: string)
    requires Bare(body)
    ensures StyleBody(body).Ok?
  {
    var pairs := TopLevelPieces(body, Blank);
    PiecesTrimmed(body, Blank);
    BarePairs(pairs, map[]);
  }

  lemma BareInline(r: string)
    requires Bare(r)
    ensures InlineStyle(r).Ok?
  {
    if StartsWith(r, "{") && EndsWith(r, "}") {
      BareInlineWhole(r);
    } else if |r| > 0 && IndexOf(r, '{') >= 0 && EndsWith(r, "}") {
      var b := IndexOf(r, '{');
      assert r[|r| - 1] == '}' by { assert r[|r| - 1..][0] == '}'; }
      BareInlineTail(r, b);
    }
  }

  lemma BareInlineWhole(r: string)
    requires Bare(r) && StartsWith(r, "{") && EndsWith(r, "}")
    ensures StyleBody(Trim(Inner(r))).Ok?
  {
    assert r[0] == '{' && r[|r| - 1] == '}' by {
      assert r[..1][0] == r[0] && r[|r| - 1..][0] == r[|r| - 1];
    }
    assert Inner(r) == r[1..|r| - 1];
    BareSlice(r, 1, |r| - 1);
    BareTrimmedBody(Inner(r));
  }

  lemma BareInlineTail(r: string, b: nat)
    requires Bare(r) && b < |r| - 1
    ensures StyleBody(Trim(r[b + 1..|r| - 1])).Ok?
  {
    BareSlice(r, b + 1, |r| - 1);
    BareTrimmedBody(r[b + 1..|r| - 1]);
  }

  lemma BareTrimmedBody(s: string)
    requires Bare(s)
    ensures StyleBody(Trim(s)).Ok?
  {
    BareTrim(s);
    BareBody(Trim(s));
  }

  lemma StartsWithChar(s: string, p: string, i: nat)
    requires i < |p|
    ensures StartsWith(s, p) ==> p[i] in s
  {
    if StartsWith(s, p) {
      assert s[..|p|][i] == s[i];
    }
  }

  /** Plain content is bare text. */
  lemma BareContent(s: string)
    requires Bare(s)
    ensures ParseContent(s) == Ok(Text(s))
  {
    StartsWithChar(s, "\"", 0);
    StartsWithChar(s, "url(", 3);
    StartsWithChar(s, "style(", 5);
    assert !StartsWith(s, "\"") && !StartsWith(s, "url(") && !StartsWith(s, "style(");
  }

  lemma BarePathPrefix(line: string)
    requires Bare(line)
    ensures Bare(PathPrefix(line).1)
  {
    var colon := IndexOf(line, ':');
    var brace := IndexOf(line, '{');
    var cut := if colon >= 0 && brace >= 0 then (if colon < brace then colon else brace)
               else (if colon > brace then colon else brace);
    if cut >= 0 {
      BareSlice(line, cut, |line|);
      BareTrim(line[cut..]);
    }
  }

  lemma BareContentSplit(s: string)
    requires Bare(s)
    ensures Bare(ContentSplit(s).0) && Bare(ContentSplit(s).1)
  {
    var k := StyleBrace(s, 0, ContentStart);
    BareTrim(s);
    if k >= 0 {
      BareSlice(s, 0, k);
      BareSlice(s, k, |s|);
      BareTrim(s[..k]);
      BareTrim(s[k..]);
    }
  }

  lemma BareDecl(line: string, n: nat)
    requires Bare(line)
    ensures ParseDecl(line, n).Ok?
  {
    var pre := PathPrefix(line);
    BarePathPrefix(line);
    var r := Trim(pre.1);
    BareTrim(pre.1);
    if StartsWith(r, ":") {
      BareSlice(r, 1, |r|);
      BareTrim(r[1..]);
      var split := ContentSplit(Trim(r[1..]));
      BareContentSplit(Trim(r[1..]));
      BareTrim(split.0);
      BareTrim(split.1);
      BareContent(Trim(split.0));
      BareInline(Trim(split.1));
    } else {
      BareInline(r);
    }
  }

  lemma BareRule(line: string, n: nat)
    requires Bare(line)
    ensures ParseRule(line, n).Ok?
  {
    var k := IndexOf(line, '{');
    var half := SplitOnce(line, '{').1;
    if k >= 0 {
      assert half == line[k + 1..];
      BareSlice(line, k + 1, |line|);
    } else {
      assert half == [];
    }
    if half != [] {
      BareSlice(half, 0, |half| - 1);
    }
    BareTrim(DropLast(half));
    BareBody(Trim(DropLast(half)));
  }

  /** A line's shape never fails it: a line without quotes, brackets or parentheses always parses. */
  lemma BareLine(raw: string, n: nat)
    requires Bare(raw)
    ensures ParseLine(raw, n).Ok?
  {
    var line := Trim(raw);
    BareTrim(raw);
    if IsItemLine(line) {
      if IsRuleLine(line) {
        BareRule(line, n);
      } else {
        BareDecl(line, n);
      }
    }
  }

  lemma {:induction false} SplitLinesChars(s: string)
    ensures forall l :: l in SplitLines(s) ==> forall c :: c in l ==> c in s
    decreases |s|
  {
    var k := IndexOf(s, '\n');
    if k >= 0 {
      InSlice(s, 0, k);
      InSlice(s, k + 1, |s|);
      SplitLinesChars(s[k + 1..]);
      var first := s[..k];
      assert forall c :: c in DropCR(first) ==> c in first;
    }
  }

  /** A source without quotes, brackets or parentheses always parses. */
  lemma BareSource(src: string)
    requires Bare(src)
    ensures Parse(src).Ok?
  {
    var lines := SplitLines(src);
    SplitLinesChars(src);
    forall i | 0 <= i < |lines| ensures ParseLine(lines[i], i + 1).Ok? {
      assert lines[i] in lines;
      BareLine(lines[i], i + 1);
    }
    ParseOkIff(src, lines);
  }

  /**
   * A line holding a `:` is never a rule: when it parses it is a declaration.
   * So the sample's `House { layout:row gap:0.4 }` and `Room { t:0.12 }` are nodes.
   */
  lemma ColonLineIsDecl(raw: string, lineNo: nat)
    requires IsItemLine(Trim(raw)) && ':' in Trim(raw) && ParseLine(raw, lineNo).Ok?
    ensures ParseLine(raw, lineNo).value.Some? && ParseLine(raw, lineNo).value.value.Decl?
    ensures ParseLine(raw, lineNo).value.value.decl.sourceLine == lineNo
  {
  }

  // ---------------------------------------------------------------- paths

  /** The path text is the trimmed text before the first `:` or `{`; the rest starts at that character. */
  lemma PathPrefixCut(line: string)
    ensures exists k :: (0 <= k <= |line| && ':' !in line[..k] && '{' !in line[..k] &&
      PathPrefix(line).0 == Trim(line[..k]) &&
      (k == |line| ==> PathPrefix(line).1 == []) &&
      (k < |line| ==> (line[k] == ':' || line[k] == '{') && PathPrefix(line).1 == Trim(line[k..])))
  {
    var colon := IndexOf(line, ':');
    var brace := IndexOf(line, '{');
    var cut := if colon >= 0 && brace >= 0 then (if colon < brace then colon else brace)
               else (if colon > brace then colon else brace);
    if cut < 0 {
      assert line[..|line|] == line;
    } else {
      if colon >= 0 && cut < colon {
        assert ':' !in line[..cut] by { assert line[..cut] == line[..colon][..cut]; }
      }
      if brace >= 0 && cut < brace {
        assert '{' !in line[..cut] by { assert line[..cut] == line[..brace][..cut]; }
      }
      assert 0 <= cut < |line|;
    }
  }

  lemma {:induction false} DropEmptyKeeps(ps: seq<string>)
    requires forall p :: p in ps ==> p != []
    ensures DropEmpty(ps) == ps
    decreases |ps|
  {
    if ps != [] {
      assert ps[0] in ps;
      assert forall p :: p in ps[1..] ==> p in ps;
      DropEmptyKeeps(ps[1..]);
      assert [ps[0]] + ps[1..] == ps;
    }
  }

  /** Path segments survive a round trip through their `/`-joined text. */
  lemma PathRoundTrip(segs: seq<string>)
    requires forall s :: s in segs ==> s != [] && '/' !in s
    ensures NonEmptyPieces(JoinWith(segs, '/'), '/') == segs
  {
    if segs == [] {
      assert SplitOn([], '/') == [[]];
    } else {
      SplitJoin(segs, '/');
      DropEmptyKeeps(segs);
    }
  }
}
