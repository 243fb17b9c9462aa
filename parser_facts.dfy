/**
 * Properties of the HSML parser: what its string decoding inverts, how
 * selectors, values and style bodies are recognised, and what the line loop
 * yields for every line of the input.
 */
module ParserFacts {
  import opened Base
  import opened Strings
  import opened Scanner
  import opened Parser

  // ------------------------------------------------------------- strings

  /** A pass that meets no first character of its pattern changes nothing. */
  lemma {:induction false} ReplacePairAbsent(s: string, a: char, b: char, rep: char)
    requires a !in s
    ensures ReplacePair(s, a, b, rep) == s
    decreases |s|
  {
    if s != [] {
      assert s[0] != a;
      ReplacePairAbsent(s[1..], a, b, rep);
      assert [s[0]] + s[1..] == s;
    }
  }

  /** Escape(x) with only the quotes escaped: what the `\n` pass leaves of Escape(x). */
  function QuotesEscaped(x: string): string {
    if x == [] then [] else (if x[0] == '"' then "\\\"" else [x[0]]) + QuotesEscaped(x[1..])
  }

  /** A character that does not start the pattern is kept, and the pass goes on after it. */
  lemma ReplaceStep(c: char, e: string, a: char, b: char, rep: char)
    requires c != a || e == [] || e[0] != b
    ensures ReplacePair([c] + e, a, b, rep) == [c] + ReplacePair(e, a, b, rep)
  {
    assert ([c] + e)[1..] == e;
  }

  /** The pattern at the head is replaced, and the pass goes on after it. */
  lemma ReplaceHit(e: string, a: char, b: char, rep: char)
    ensures ReplacePair([a, b] + e, a, b, rep) == [rep] + ReplacePair(e, a, b, rep)
  {
    assert ([a, b] + e)[2..] == e;
  }

  lemma {:induction false} NewlinePass(x: string)
    requires '\\' !in x
    ensures ReplacePair(Escape(x), '\\', 'n', '\n') == QuotesEscaped(x)
    decreases |x|
  {
    if x != [] {
      assert '\\' !in x[1..] by { InSlice(x, 1, |x|); }
      NewlinePass(x[1..]);
      NewlineStep(x);
    }
  }

  /** One character of the `\n` pass over an escaped text, given the pass over the rest. */
  lemma NewlineStep(x: string)
    requires x != [] && x[0] != '\\'
    requires ReplacePair(Escape(x[1..]), '\\', 'n', '\n') == QuotesEscaped(x[1..])
    ensures ReplacePair(Escape(x), '\\', 'n', '\n') == QuotesEscaped(x)
  {
    if x[0] == '"' {
      NewlineAtQuote(x);
    } else if x[0] == '\n' {
      NewlineAtNewline(x);
    } else {
      NewlineAtOther(x);
    }
  }

  lemma NewlineAtQuote(x: string)
    requires x != [] && x[0] == '"'
    requires ReplacePair(Escape(x[1..]), '\\', 'n', '\n') == QuotesEscaped(x[1..])
    ensures ReplacePair(Escape(x), '\\', 'n', '\n') == QuotesEscaped(x)
  {
    var e := Escape(x[1..]);
    assert Escape(x) == ['\\'] + (['"'] + e);
    ReplaceStep('\\', ['"'] + e, '\\', 'n', '\n');
    ReplaceStep('"', e, '\\', 'n', '\n');
    assert QuotesEscaped(x) == ['\\'] + (['"'] + QuotesEscaped(x[1..]));
  }

  lemma NewlineAtNewline(x: string)
    requires x != [] && x[0] == '\n'
    requires ReplacePair(Escape(x[1..]), '\\', 'n', '\n') == QuotesEscaped(x[1..])
    ensures ReplacePair(Escape(x), '\\', 'n', '\n') == QuotesEscaped(x)
  {
    var e := Escape(x[1..]);
    assert Escape(x) == ['\\', 'n'] + e;
    ReplaceHit(e, '\\', 'n', '\n');
    assert QuotesEscaped(x) == ['\n'] + QuotesEscaped(x[1..]);
  }

  lemma NewlineAtOther(x: string)
    requires x != [] && x[0] != '\\' && x[0] != '"' && x[0] != '\n'
    requires ReplacePair(Escape(x[1..]), '\\', 'n', '\n') == QuotesEscaped(x[1..])
    ensures ReplacePair(Escape(x), '\\', 'n', '\n') == QuotesEscaped(x)
  {
    var e := Escape(x[1..]);
    assert Escape(x) == [x[0]] + e;
    ReplaceStep(x[0], e, '\\', 'n', '\n');
    assert QuotesEscaped(x) == [x[0]] + QuotesEscaped(x[1..]);
  }

  lemma {:induction false} QuotePass(x: string)
    requires '\\' !in x
    ensures ReplacePair(QuotesEscaped(x), '\\', '"', '"') == x
    decreases |x|
  {
    if x != [] {
      assert '\\' !in x[1..] by { InSlice(x, 1, |x|); }
      QuotePass(x[1..]);
      var e := QuotesEscaped(x[1..]);
      if x[0] == '"' {
        var s := "\\\"" + e;
        assert s[2..] == e;
      } else {
        var s := [x[0]] + e;
        assert s[1..] == e;
      }
      assert [x[0]] + x[1..] == x;
    }
  }

  /** For a text without backslashes, the decoding undoes the escaping of quotes and line feeds. */
  lemma UnescapeEscape(x: string)
    requires '\\' !in x
    ensures Unescape(Escape(x)) == x
  {
    NewlinePass(x);
    QuotePass(x);
    ReplacePairAbsent(x, '\\', '\\', '\\');
  }

  /**
   * The passes run `\n` first, so an escaped backslash followed by `n` is
   * read as a backslash and a line feed: the decoding is not an inverse of
   * the escaping once the text holds a backslash.
   */
  lemma UnescapeBackslashThenN()
    ensures Escape("\\n") == "\\\\n"
    ensures Unescape("\\\\n") == "\\\n"
    ensures Unescape(Escape("\\n")) != "\\n"
  {
    assert Escape("n") == "n";
    var s := "\\\\n";
    assert s[1..] == "\\n" && s[1..][2..] == [];
    assert ReplacePair(s, '\\', 'n', '\n') == "\\\n";
    var t := "\\\n";
    assert t[1..] == "\n" && t[1..][1..] == [];
    assert ReplacePair(t, '\\', '"', '"') == t;
    assert ReplacePair(t, '\\', '\\', '\\') == t;
  }

  /** A text as a writer of HSML quotes it. */
  function Quote(x: string): string {
    "\"" + Escape(x) + "\""
  }

  /** A quoted text parses back to the text that was escaped into it. */
  lemma ParseStringQuoted(x: string)
    requires '\\' !in x
    ensures ParseString(Quote(x)) == Ok(x)
  {
    var q := Quote(x);
    TrimOfTrimmed(q);
    assert q[..1] == "\"" && q[|q| - 1..] == "\"";
    assert Inner(q) == Escape(x);
    UnescapeEscape(x);
  }

  /** parseString fails exactly when the trimmed text does not both start and end with a quote. */
  lemma ParseStringFails(s: string)
    ensures var t := Trim(s);
      ParseString(s).Err? <==> !(t != [] && t[0] == '"' && t[|t| - 1] == '"')
  {
    var t := Trim(s);
    if t != [] {
      assert StartsWith(t, "\"") <==> t[0] == '"' by { assert t[..1] == [t[0]]; }
      assert EndsWith(t, "\"") <==> t[|t| - 1] == '"' by { assert t[|t| - 1..] == [t[|t| - 1]]; }
    }
  }

  /** A lone quote both starts and ends the literal, so it is the empty text. */
  lemma LoneQuoteIsEmpty()
    ensures ParseString("\"") == Ok("")
    ensures ParseString("abc") == Err(ExpectedString("abc"))
  {
    TrimOfTrimmed("\"");
    TrimOfTrimmed("abc");
  }

  /** The wrapper `name(...)` around a quoted text unwraps to the text. */
  lemma FuncArgQuoted(name: string, x: string)
    requires '\\' !in x
    ensures ParseFuncStringArg(name + "(" + Quote(x) + ")", name) == Ok(x)
  {
    var q := Quote(x);
    var prefix := name + "(";
    var u := prefix + q + ")";
    assert u[..|prefix|] == prefix && u[|u| - 1..] == ")" && u[|prefix|..|u| - 1] == q;
    assert StartsWith(u, prefix) && EndsWith(u, ")");
    TrimOfTrimmed(q);
    ParseStringQuoted(x);
    assert ParseFuncStringArg(u, name) == ParseString(Trim(q));
  }

  /** `url("...")` unwraps to the quoted text. */
  lemma ParseUrlContent(x: string)
    requires '\\' !in x
    ensures ParseContent("url(" + Quote(x) + ")") == Ok(Url(x))
  {
    var u := "url(" + Quote(x) + ")";
    assert "url" + "(" + Quote(x) + ")" == u;
    FuncArgQuoted("url", x);
    assert StartsWith(u, "url(") by { assert u[..4] == "url("; }
    assert !StartsWith(u, "\"") by { assert u[0] == 'u'; }
    ContentOfUrl(u);
  }

  lemma ContentOfUrl(u: string)
    requires StartsWith(u, "url(") && !StartsWith(u, "\"")
    ensures ParseContent(u) == match ParseFuncStringArg(u, "url") case Ok(v) => Ok(Url(v)) case Err(e) => Err(e)
  {
  }

  /** `style("...")` unwraps to the quoted text. */
  lemma ParseStyleContent(x: string)
    requires '\\' !in x
    ensures ParseContent("style(" + Quote(x) + ")") == Ok(Style(x))
  {
    var v := "style(" + Quote(x) + ")";
    assert v[..6] == "style(";
    assert v[0] == 's';
    assert !StartsWith(v, "\"") by { assert v[..1] != "\""; }
    assert !StartsWith(v, "url(") by { assert v[..4][0] == 's'; }
    assert "style" + "(" + Quote(x) + ")" == v;
    FuncArgQuoted("style", x);
  }

  /** A `url(` wrapper that is not closed is refused. */
  lemma UnclosedUrlFails(q: string)
    requires q != [] && q[|q| - 1] != ')'
    ensures ParseContent("url(" + q) == Err(InvalidWrapper("url"))
  {
    var w := "url(" + q;
    assert w[..4] == "url(";
    assert !StartsWith(w, "\"") by { assert w[0] == 'u'; }
    assert !EndsWith(w, ")") by { assert w[|w| - 1..] == [q[|q| - 1]]; }
  }

  // ----------------------------------------------------------- selectors

  /** The selectors a rule line can write: name and path tokens differ by a `/`. */
  predicate WellFormedSelector(sel: Selector) {
    match sel
    case ByName(a) => IsWord(a) && '/' !in a
    case ByPath(a) => IsWord(a) && '/' in a
    case Desc(a, b) => IsWord(a) && IsWord(b)
  }

  function RenderSelector(sel: Selector): string {
    match sel
    case ByName(a) => a
    case ByPath(a) => a
    case Desc(a, b) => a + " " + b
  }

  /** Every well-formed selector is read back from its text. */
  lemma ParseSelectorRender(sel: Selector)
    requires WellFormedSelector(sel)
    ensures ParseSelector(RenderSelector(sel)) == sel
  {
    var s := RenderSelector(sel);
    match sel {
      case ByName(a) =>
        TrimOfTrimmed(a);
        WordsOfToken(a);
      case ByPath(a) =>
        TrimOfTrimmed(a);
        WordsOfToken(a);
      case Desc(a, b) =>
        assert s[0] == a[0] && s[|s| - 1] == b[|b| - 1];
        TrimOfTrimmed(s);
        WordsOfPair(a, b);
    }
  }

  /** Three or more tokens fall back to a name selector of the whole trimmed text. */
  lemma ParseSelectorThreeTokens(a: string, b: string, c: string)
    requires IsWord(a) && IsWord(b) && IsWord(c)
    ensures ParseSelector(a + " " + b + " " + c) == ByName(a + " " + b + " " + c)
  {
    ThreeTokensTrimmed(a, b, c);
    ThreeTokensWords(a, b, c);
    SelectorOfThree(a + " " + b + " " + c);
  }

  lemma ThreeTokensTrimmed(a: string, b: string, c: string)
    requires IsWord(a) && IsWord(c)
    ensures Trim(a + " " + b + " " + c) == a + " " + b + " " + c
  {
    var s := a + " " + b + " " + c;
    assert s[0] == a[0] && s[|s| - 1] == c[|c| - 1];
    TrimOfTrimmed(s);
  }

  lemma ThreeTokensWords(a: string, b: string, c: string)
    requires IsWord(a) && IsWord(b) && IsWord(c)
    ensures |Words(a + " " + b + " " + c)| == 3
  {
    ThreeWords(a, b, c);
    BlankJoinAssoc(a, b, c);
  }

  lemma ThreeWords(a: string, b: string, c: string)
    requires IsWord(a) && IsWord(b) && IsWord(c)
    ensures Words(a + " " + (b + " " + c)) == [a, b, c]
  {
    var bc := b + " " + c;
    assert Words(bc) == [b, c] by { WordsOfPair(b, c); }
    assert Words(a + " " + bc) == [a] + Words(bc) by { WordsCons(a, bc); }
    assert [a] + [b, c] == [a, b, c];
  }

  lemma BlankJoinAssoc(a: string, b: string, c: string)
    ensures a + " " + b + " " + c == a + " " + (b + " " + c)
  {
  }

  lemma SelectorOfThree(s: string)
    requires Trim(s) == s && |Words(s)| == 3
    ensures ParseSelector(s) == ByName(s)
  {
  }

  /** A blank selector has no token and is the name selector of the empty text. */
  lemma ParseSelectorBlank(blank: string)
    requires forall j :: 0 <= j < |blank| ==> IsSpace(blank[j])
    ensures ParseSelector(blank) == ByName([])
  {
    TrimFacts(blank);
    var t := Trim(blank);
    assert t == [];
    assert TrimStart(t) == [];
    assert Words(t) == [];
  }

  // -------------------------------------------------------------- values

  /** A text that is no string, list, number or call is read as an identifier. */
  lemma ValueIsIdent(s: string)
    requires var t := Trim(s);
      t != [] && t[0] != '"' && t[0] != '[' && !IsNumberLiteral(t) && CallShape(t).None?
    ensures ParseValue(s) == Ok(Ident(Trim(s)))
  {
  }

  /** A text in brackets is read as a list. */
  lemma ValueIsList(s: string)
    requires Trim(s) != [] && Trim(s)[0] == '['
    ensures ParseValue(s) == ParseList(Trim(s))
  {
  }

  /** A call is read with its arguments split at top-level commas. */
  lemma ValueIsCall(s: string)
    requires var t := Trim(s);
      t != [] && t[0] != '"' && t[0] != '[' && !IsNumberLiteral(t) && CallShape(t).Some?
    ensures var parts := CallShape(Trim(s)).value;
      ParseValue(s) == match ParseArgs(TopLevelPieces(parts.1, Comma))
        case Ok(args) => Ok(Call(parts.0, args))
        case Err(e) => Err(e)
  {
  }

  /** parseValue classifies its trimmed input: empty, string, list, number, call, or else identifier. */
  lemma ParseValueKinds(s: string)
    ensures var t := Trim(s); var r := ParseValue(s);
      && (t == [] ==> r == Ok(Ident([])))
      && (r.Ok? && r.value.Str? <==> t != [] && t[0] == '"' && ParseString(t).Ok?)
      && (r.Ok? && r.value.Str? ==> ParseString(t) == Ok(r.value.str))
      && (r.Ok? && r.value.List? ==> t != [] && t[0] == '[')
      && (t != [] && t[0] == '[' ==> r.Err? || r.value.List?)
      && (r.Ok? && r.value.Num? <==> IsNumberLiteral(t))
      && (r.Ok? && r.value.Num? ==> r.value.num == NumberValue(t))
      && (r.Ok? && r.value.Call? ==>
            t[0] != '"' && t[0] != '[' && !IsNumberLiteral(t) && CallShape(t).Some? &&
            r.value.name == CallShape(t).value.0)
      && (t != [] && t[0] != '"' && t[0] != '[' && !IsNumberLiteral(t) && CallShape(t).Some? ==>
            r.Err? || r.value.Call?)
      && (r.Ok? && r.value.Ident? ==> r.value.ident == t)
      && (t != [] && t[0] != '"' && t[0] != '[' && !IsNumberLiteral(t) && CallShape(t).None? ==>
            r == Ok(Ident(t)))
      && (r.Err? ==> t != [] && (t[0] == '"' || t[0] == '[' || CallShape(t).Some?))
  {
    var t := Trim(s);
    var r := ParseValue(s);
    if IsNumberLiteral(t) {
      NumberLiteralStart(t);
    }
    if t == [] {
      assert r == Ok(Ident([]));
    } else if t[0] == '"' {
      assert r == if ParseString(t).Ok? then Ok(Str(ParseString(t).value)) else Err(ParseString(t).error);
    } else if t[0] == '[' {
      assert r == ParseList(t);
    } else if IsNumberLiteral(t) {
      assert r == Ok(Num(NumberValue(t)));
    } else if CallShape(t).Some? {
      var args := ParseArgs(TopLevelPieces(CallShape(t).value.1, Comma));
      assert r == if args.Ok? then Ok(Call(CallShape(t).value.0, args.value)) else Err(args.error);
    } else {
      assert r == Ok(Ident(t));
    }
  }

  /** The end of the run of name characters from `i` when it stops at `k`. */
  lemma {:induction false} NameEndAt(t: string, i: nat, k: nat)
    requires i <= k <= |t| && (k == |t| || !IsNameChar(t[k])) && forall j :: i <= j < k ==> IsNameChar(t[j])
    ensures NameEnd(t, i) == k
    decreases k - i
  {
    if i < k {
      NameEndAt(t, i + 1, k);
    }
  }

  /** An argument written as name characters and dots: an identifier or a number. */
  predicate IsPlainArg(a: string) {
    a != [] && forall i :: 0 <= i < |a| ==> IsNameChar(a[i]) || a[i] == '.'
  }

  lemma PlainArgFacts(a: string)
    requires IsPlainArg(a)
    ensures IsToken(a, Comma) && Trim(a) == a && ParseArg(a).Ok?
  {
    assert Plain(a);
    TrimOfTrimmed(a);
  }

  lemma CallNameFacts(w: string)
    requires IsCallName(w)
    ensures IsPlainArg(w) && Trim(w) == w && !IsNumberLiteral(w) && CallShape(w).None?
  {
    assert IsPlainArg(w);
    PlainArgFacts(w);
    CallNameNotNumber(w);
    CallNameNoShape(w);
  }

  lemma CallNameNotNumber(w: string)
    requires IsCallName(w)
    ensures !IsNumberLiteral(w)
  {
    if IsNumberLiteral(w) {
      NumberLiteralStart(w);
    }
  }

  lemma CallNameNoShape(w: string)
    requires IsCallName(w)
    ensures CallShape(w).None?
  {
    NameEndAt(w, 1, |w|);
  }

  lemma {:induction false} ParseArgsOk(ps: seq<string>)
    requires forall p :: p in ps ==> ParseArg(p).Ok?
    ensures ParseArgs(ps).Ok?
    decreases |ps|
  {
    if ps != [] {
      assert ps[0] in ps;
      ParseArgsOk(ps[1..]);
    }
  }

  /** A call name is read back as the identifier it spells. */
  lemma IdentRoundTrip(w: string)
    requires IsCallName(w)
    ensures ParseValue(w) == Ok(Ident(w))
  {
    CallNameFacts(w);
    assert IsLetter(w[0]) || w[0] == '_';
    ValueIsIdent(w);
  }

  /** The text of a call with plain arguments. */
  function CallText(name: string, args: seq<string>): string {
    name + "(" + JoinWith(args, ',') + ")"
  }

  lemma CallTextShape(name: string, args: seq<string>)
    requires IsCallName(name) && forall a :: a in args ==> IsPlainArg(a)
    ensures CallShape(CallText(name, args)) == Some((name, JoinWith(args, ',')))
  {
    var inner := JoinWith(args, ',');
    var t := CallText(name, args);
    assert t[..|name|] == name && t[|name|] == '(';
    assert forall j :: 1 <= j < |name| ==> t[j] == name[j];
    NameEndAt(t, 1, |name|);
    assert t[|name| + 1..|t| - 1] == inner;
    PlainJoinChars(args);
  }

  /** Joined plain arguments hold only name characters, dots and commas. */
  lemma {:induction false} PlainJoinChars(args: seq<string>)
    requires forall a :: a in args ==> IsPlainArg(a)
    ensures forall i :: 0 <= i < |JoinWith(args, ',')| ==>
      var c := JoinWith(args, ',')[i]; IsNameChar(c) || c == '.' || c == ','
    decreases |args|
  {
    if |args| >= 2 {
      PlainJoinChars(args[1..]);
      var j := JoinWith(args, ',');
      assert j == args[0] + [','] + JoinWith(args[1..], ',');
      assert args[0] in args;
    } else if |args| == 1 {
      assert args[0] in args;
    }
  }

  /** A call written with plain arguments is read back with each argument parsed on its own. */
  lemma CallRoundTrip(name: string, args: seq<string>)
    requires IsCallName(name) && forall a :: a in args ==> IsPlainArg(a)
    ensures ParseValue(CallText(name, args)).Ok?
    ensures var v := ParseValue(CallText(name, args)).value;
      v.Call? && v.name == name && |v.args| == |args| &&
      forall i :: 0 <= i < |args| ==> ParseArg(args[i]) == Ok(v.args[i])
  {
    var t := CallText(name, args);
    assert t[0] == name[0] && t[|t| - 1] == ')';
    assert IsLetter(t[0]) || t[0] == '_';
    TrimOfTrimmed(t);
    if IsNumberLiteral(t) {
      NumberLiteralStart(t);
    }
    CallTextShape(name, args);
    forall a | a in args ensures IsToken(a, Comma) && ParseArg(a).Ok? {
      PlainArgFacts(a);
    }
    SplitJoinTokens(args, Comma);
    ParseArgsOk(args);
    ValueIsCall(t);
  }

  function Idents(ws: seq<string>): (r: seq<StyleValue>)
    ensures |r| == |ws| && forall i :: 0 <= i < |ws| ==> r[i] == Ident(ws[i])
  {
    if ws == [] then [] else [Ident(ws[0])] + Idents(ws[1..])
  }

  /** The text of a list of identifiers. */
  function ListText(ws: seq<string>): string {
    "[" + JoinWith(ws, ',') + "]"
  }

  lemma {:induction false} ParseItemsIdents(ws: seq<string>, bound: nat)
    requires forall w :: w in ws ==> IsCallName(w) && |w| < bound
    ensures ParseItems(ws, bound) == Ok(Idents(ws))
    decreases |ws|
  {
    if ws != [] {
      assert ws[0] in ws;
      IdentRoundTrip(ws[0]);
      ParseItemsIdents(ws[1..], bound);
    }
  }

  /** Joined identifiers are their own trim and split back into the identifiers. */
  lemma JoinedNames(ws: seq<string>)
    requires forall w :: w in ws ==> IsCallName(w)
    ensures var inner := JoinWith(ws, ',');
      && Trim(inner) == inner
      && (ws != [] ==> inner != [])
      && TopLevelPieces(inner, Comma) == ws
      && forall w :: w in ws ==> |w| <= |inner|
  {
    NamesArePlain(ws);
    JoinedNamesTrimmed(ws);
    JoinedNamesLengths(ws);
    SplitJoinTokens(ws, Comma);
  }

  lemma NamesArePlain(ws: seq<string>)
    requires forall w :: w in ws ==> IsCallName(w)
    ensures forall w :: w in ws ==> IsPlainArg(w) && IsToken(w, Comma)
  {
    forall w | w in ws ensures IsPlainArg(w) && IsToken(w, Comma) {
      CallNameFacts(w);
      PlainArgFacts(w);
    }
  }

  lemma JoinedNamesTrimmed(ws: seq<string>)
    requires forall w :: w in ws ==> IsPlainArg(w)
    ensures Trim(JoinWith(ws, ',')) == JoinWith(ws, ',')
  {
    PlainJoinChars(ws);
    TrimOfTrimmed(JoinWith(ws, ','));
  }

  lemma JoinedNamesLengths(ws: seq<string>)
    ensures forall w :: w in ws ==> |w| <= |JoinWith(ws, ',')|
  {
    forall w | w in ws ensures |w| <= |JoinWith(ws, ',')| {
      JoinedPartLength(ws, w, ',');
    }
  }

  /** A list of identifiers is read back item by item. */
  lemma ListRoundTrip(ws: seq<string>)
    requires forall w :: w in ws ==> IsCallName(w)
    ensures ParseValue(ListText(ws)) == Ok(List(Idents(ws)))
  {
    var inner := JoinWith(ws, ',');
    var t := ListText(ws);
    assert t[0] == '[' && t[|t| - 1] == ']';
    TrimOfTrimmed(t);
    assert t[..1] == "[" && t[|t| - 1..] == "]";
    assert Inner(t) == inner;
    JoinedNames(ws);
    ParseItemsIdents(ws, |t|);
    ValueIsList(t);
    if ws == [] {
      ListOfNothing(t);
    } else {
      ListOfItems(t, ws);
    }
  }

  lemma ListOfNothing(t: string)
    requires StartsWith(t, "[") && EndsWith(t, "]") && Trim(Inner(t)) == []
    ensures ParseList(t) == Ok(List([]))
  {
  }

  lemma ListOfItems(t: string, ws: seq<string>)
    requires StartsWith(t, "[") && EndsWith(t, "]") && Trim(Inner(t)) != []
    requires forall w :: w in ws ==> IsCallName(w) && |w| < |t|
    requires TopLevelPieces(Trim(Inner(t)), Comma) == ws
    requires ParseItems(ws, |t|) == Ok(Idents(ws))
    ensures ParseList(t) == Ok(List(Idents(ws)))
  {
  }

  /** Every part is no longer than the parts joined. */
  lemma {:induction false} JoinedPartLength(ws: seq<string>, w: string, c: char)
    requires w in ws
    ensures |w| <= |JoinWith(ws, c)|
    decreases |ws|
  {
    if |ws| >= 2 && w != ws[0] {
      assert w in ws[1..];
      JoinedPartLength(ws[1..], w, c);
    }
  }

  // -------------------------------------------------------- style bodies

  /** A pair as the loop of parseStyleBody sees it: its trimmed key and its trimmed value text. */
  datatype Entry = Entry(key: string, text: string)

  function EntryOf(p: string): Entry {
    Entry(PairKey(p), PairValue(p))
  }

  function Entries(pairs: seq<string>): (es: seq<Entry>)
    ensures |es| == |pairs|
  {
    if pairs == [] then [] else [EntryOf(pairs[0])] + Entries(pairs[1..])
  }

  /** One entry per pair, in order. */
  lemma {:induction false} EntriesAt(pairs: seq<string>, i: nat)
    requires i < |pairs|
    ensures |Entries(pairs)| == |pairs| && Entries(pairs)[i] == EntryOf(pairs[i])
  {
    if i > 0 {
      EntriesAt(pairs[1..], i - 1);
      assert pairs[1..][i - 1] == pairs[i];
    }
  }

  lemma EntryKeyAt(pairs: seq<string>, i: nat)
    requires i < |pairs|
    ensures |Entries(pairs)| == |pairs| && Entries(pairs)[i].key == PairKey(pairs[i])
  {
    EntriesAt(pairs, i);
  }

  /** The pair loop over entries instead of pair texts. */
  function Fold(es: seq<Entry>, acc: StyleMap): Result<StyleMap, ParseError> {
    if es == [] then Ok(acc)
    else if es[0].key == [] then Fold(es[1..], acc)
    else
      var v :- ParseValue(es[0].text);
      Fold(es[1..], acc[es[0].key := v])
  }

  lemma FoldCons(e: Entry, es: seq<Entry>, acc: StyleMap)
    ensures Fold([e] + es, acc) ==
      if e.key == [] then Fold(es, acc)
      else match ParseValue(e.text)
        case Ok(v) => Fold(es, acc[e.key := v])
        case Err(err) => Err(err)
  {
    assert ([e] + es)[0] == e && ([e] + es)[1..] == es;
  }

  /** Folding the pair texts is folding their entries. */
  lemma {:induction false} FoldEntries(pairs: seq<string>, acc: StyleMap)
    ensures StyleFromPairs(pairs, acc) == Fold(Entries(pairs), acc)
    decreases |pairs|
  {
    if pairs != [] {
      var rest := pairs[1..];
      var key := PairKey(pairs[0]);
      var value := ParseValue(PairValue(pairs[0]));
      assert pairs[0..] == pairs;
      assert EntryOf(pairs[0]) == Entry(key, PairValue(pairs[0]));
      FoldCons(Entry(key, PairValue(pairs[0])), Entries(rest), acc);
      if key == [] {
        StyleSkip(pairs, 0, acc);
        FoldEntries(rest, acc);
      } else if value.Ok? {
        StyleAdd(pairs, 0, acc, value.value);
        FoldEntries(rest, acc[key := value.value]);
      } else {
        StyleFail(pairs, 0, acc, value.error);
      }
    }
  }

  /** Some entry carries `key`. */
  predicate Named(es: seq<Entry>, key: string) {
    es != [] && (es[0].key == key || Named(es[1..], key))
  }

  lemma {:induction false} NamedAt(es: seq<Entry>, key: string)
    ensures Named(es, key) <==> exists j :: 0 <= j < |es| && es[j].key == key
    decreases |es|
  {
    if es != [] {
      NamedAt(es[1..], key);
      if Named(es[1..], key) {
        var j :| 0 <= j < |es[1..]| && es[1..][j].key == key;
        assert es[j + 1].key == key;
      }
      if exists j :: 0 <= j < |es| && es[j].key == key {
        var j :| 0 <= j < |es| && es[j].key == key;
        if j > 0 {
          assert es[1..][j - 1].key == key;
        }
      }
    }
  }

  /** The loop keeps a key exactly when `acc` had it or a pair names it with a non-empty key. */
  lemma {:induction false} FoldKeys(es: seq<Entry>, acc: StyleMap, m: StyleMap, key: string)
    requires Fold(es, acc) == Ok(m)
    ensures key in m <==> key in acc || (key != [] && Named(es, key))
    decreases |es|
  {
    if es != [] {
      if es[0].key == [] {
        FoldKeys(es[1..], acc, m, key);
      } else {
        FoldKeys(es[1..], acc[es[0].key := ParseValue(es[0].text).value], m, key);
      }
    }
  }

  /** A key that no pair names keeps its value from `acc`. */
  lemma {:induction false} FoldKeeps(es: seq<Entry>, acc: StyleMap, m: StyleMap, key: string)
    requires Fold(es, acc) == Ok(m)
    requires key in acc && !Named(es, key)
    ensures key in m && m[key] == acc[key]
    decreases |es|
  {
    if es != [] {
      if es[0].key == [] {
        FoldKeeps(es[1..], acc, m, key);
      } else {
        var acc' := acc[es[0].key := ParseValue(es[0].text).value];
        assert acc'[key] == acc[key];
        FoldKeeps(es[1..], acc', m, key);
      }
    }
  }

  /** The value of a non-empty key comes from the last entry that names it. */
  lemma {:induction false} FoldLastWins(es: seq<Entry>, acc: StyleMap, m: StyleMap, j: nat)
    requires Fold(es, acc) == Ok(m)
    requires j < |es| && es[j].key != [] && !Named(es[j + 1..], es[j].key)
    ensures es[j].key in m && ParseValue(es[j].text) == Ok(m[es[j].key])
    decreases |es|
  {
    if es[0].key == [] {
      assert es[1..][j - 1] == es[j] && es[1..][j..] == es[j + 1..];
      FoldLastWins(es[1..], acc, m, j - 1);
    } else {
      var acc' := acc[es[0].key := ParseValue(es[0].text).value];
      if j == 0 {
        FoldKeeps(es[1..], acc', m, es[0].key);
      } else {
        assert es[1..][j - 1] == es[j] && es[1..][j..] == es[j + 1..];
        FoldLastWins(es[1..], acc', m, j - 1);
      }
    }
  }

  /** A style body keeps exactly the non-empty keys its pairs name. */
  lemma StyleBodyKeys(body: string, m: StyleMap, key: string)
    requires StyleBody(body) == Ok(m)
    ensures var pairs := TopLevelPieces(body, Blank);
      key in m <==> key != [] && exists j :: 0 <= j < |pairs| && PairKey(pairs[j]) == key
  {
    var pairs := TopLevelPieces(body, Blank);
    var es := Entries(pairs);
    FoldEntries(pairs, map[]);
    FoldKeys(es, map[], m, key);
    NamedAt(es, key);
    if exists j :: 0 <= j < |es| && es[j].key == key {
      var j :| 0 <= j < |es| && es[j].key == key;
      EntriesAt(pairs, j);
    }
    if exists j :: 0 <= j < |pairs| && PairKey(pairs[j]) == key {
      var j :| 0 <= j < |pairs| && PairKey(pairs[j]) == key;
      EntriesAt(pairs, j);
    }
  }

  /** When a key appears several times, the last pair that names it gives its value. */
  lemma StyleBodyLastWins(body: string, m: StyleMap, j: nat)
    requires StyleBody(body) == Ok(m)
    requires var pairs := TopLevelPieces(body, Blank);
      && j < |pairs| && PairKey(pairs[j]) != []
      && forall i :: j < i < |pairs| ==> PairKey(pairs[i]) != PairKey(pairs[j])
    ensures var pairs := TopLevelPieces(body, Blank);
      PairKey(pairs[j]) in m && ParseValue(PairValue(pairs[j])) == Ok(m[PairKey(pairs[j])])
  {
    PairsLastWins(TopLevelPieces(body, Blank), m, j);
  }

  lemma PairsLastWins(pairs: seq<string>, m: StyleMap, j: nat)
    requires StyleFromPairs(pairs, map[]) == Ok(m)
    requires j < |pairs| && PairKey(pairs[j]) != []
    requires forall i :: j < i < |pairs| ==> PairKey(pairs[i]) != PairKey(pairs[j])
    ensures PairKey(pairs[j]) in m && ParseValue(PairValue(pairs[j])) == Ok(m[PairKey(pairs[j])])
  {
    var es := Entries(pairs);
    assert Fold(es, map[]) == Ok(m) by { FoldEntries(pairs, map[]); }
    LaterKeys(pairs, j);
    FoldLastWins(es, map[], m, j);
    EntryParts(pairs[j]);
  }

  /** No pair after `j` names the key of pair `j`: no entry after `j` does. */
  lemma LaterKeys(pairs: seq<string>, j: nat)
    requires j < |pairs|
    requires forall i :: j < i < |pairs| ==> PairKey(pairs[i]) != PairKey(pairs[j])
    ensures var es := Entries(pairs);
      |es| == |pairs| && es[j] == EntryOf(pairs[j]) && !Named(es[j + 1..], es[j].key)
  {
    var es := Entries(pairs);
    EntriesAt(pairs, j);
    forall i | j < i < |es| ensures es[i].key != es[j].key {
      EntryKeyAt(pairs, i);
    }
    NoLaterEntry(es, j);
  }

  lemma NoLaterEntry(es: seq<Entry>, j: nat)
    requires j < |es| && forall i :: j < i < |es| ==> es[i].key != es[j].key
    ensures !Named(es[j + 1..], es[j].key)
  {
    var tail := es[j + 1..];
    forall i | 0 <= i < |tail| ensures tail[i].key != es[j].key {
      assert tail[i] == es[j + 1 + i];
    }
    NamedAt(tail, es[j].key);
  }

  lemma EntryParts(p: string)
    ensures EntryOf(p).key == PairKey(p) && EntryOf(p).text == PairValue(p)
  {
  }
}
