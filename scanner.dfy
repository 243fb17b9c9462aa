/**
 * The quote-, bracket- and parenthesis-aware character scanners of the
 * parser (src/hsml/parseHSML.ts): `splitTopLevelPairs` and `splitArgs`,
 * which cut a style body or an argument list at top-level separators, and
 * `splitContentAndInlineStyle`, which finds the `{` that starts an inline
 * style after a node's content.
 *
 * Each scanner is a loop over characters in the source; here it is a method
 * with that loop, proved equal to a recursive specification function, and
 * the properties of the split are lemmas about that function.
 */
module Scanner {
  import Base
  import opened Strings

  /** The separator a scan splits on: blanks between style pairs, commas between arguments. */
  datatype Separator = Blank | Comma

  predicate IsSeparator(sep: Separator, c: char) {
    match sep
    case Blank => c == ' ' || c == '\t'
    case Comma => c == ','
  }

  /** Scanner state: inside a quoted string, just after a backslash in one, and the `[` and `(` depths. */
  datatype ScanState = ScanState(inStr: bool, esc: bool, bracket: nat, paren: nat)

  const Start := ScanState(false, false, 0, 0)

  /** The state after reading `c`; closing a bracket or paren never drops a depth below 0. */
  function Next(st: ScanState, c: char): ScanState {
    if st.esc then st.(esc := false)
    else if c == '\\' && st.inStr then st.(esc := true)
    else if c == '"' then st.(inStr := !st.inStr)
    else if st.inStr then st
    else if c == '[' then st.(bracket := st.bracket + 1)
    else if c == ']' then st.(bracket := if st.bracket == 0 then 0 else st.bracket - 1)
    else if c == '(' then st.(paren := st.paren + 1)
    else if c == ')' then st.(paren := if st.paren == 0 then 0 else st.paren - 1)
    else st
  }

  /** `c` ends the current piece: a separator outside every string, bracket and paren. */
  predicate IsCut(st: ScanState, sep: Separator, c: char) {
    !st.esc && !st.inStr && st.bracket == 0 && st.paren == 0 && IsSeparator(sep, c)
  }

  /** `if (cur.trim()) out.push(cur.trim())` */
  function Flush(cur: string): seq<string> {
    if Trim(cur) == [] then [] else [Trim(cur)]
  }

  /** The pieces produced by scanning `s` in state `st` with `cur` already collected. */
  function Scan(s: string, sep: Separator, st: ScanState, cur: string): seq<string>
    decreases |s|
  {
    if s == [] then Flush(cur)
    else if IsCut(st, sep, s[0]) then Flush(cur) + Scan(s[1..], sep, st, [])
    else Scan(s[1..], sep, Next(st, s[0]), cur + [s[0]])
  }

  /** What `splitTopLevelPairs` (Blank) and `splitArgs` (Comma) return. */
  function TopLevelPieces(s: string, sep: Separator): seq<string> {
    Scan(s, sep, Start, [])
  }

  /** `Scan` of `s[i..]`, indexed by position instead of by suffix. */
  function ScanFrom(s: string, i: nat, sep: Separator, st: ScanState, cur: string): seq<string>
    requires i <= |s|
    decreases |s| - i
  {
    if i == |s| then Flush(cur)
    else if IsCut(st, sep, s[i]) then Flush(cur) + ScanFrom(s, i + 1, sep, st, [])
    else ScanFrom(s, i + 1, sep, Next(st, s[i]), cur + [s[i]])
  }

  lemma {:induction false} ScanFromIsScan(s: string, i: nat, sep: Separator, st: ScanState, cur: string)
    requires i <= |s|
    ensures ScanFrom(s, i, sep, st, cur) == Scan(s[i..], sep, st, cur)
    decreases |s| - i
  {
    if i < |s| {
      assert s[i..][0] == s[i] && s[i..][1..] == s[i + 1..];
      if IsCut(st, sep, s[i]) {
        ScanFromIsScan(s, i + 1, sep, st, []);
      } else {
        ScanFromIsScan(s, i + 1, sep, Next(st, s[i]), cur + [s[i]]);
      }
    }
  }

  /** The character loop shared by `splitTopLevelPairs` and `splitArgs`. */
  method SplitTopLevel(s: string, sep: Separator) returns (out: seq<string>)
    ensures out == TopLevelPieces(s, sep)
  {
    ScanFromIsScan(s, 0, sep, Start, []);
    assert s[0..] == s;
    out := [];
    var cur: string := [];
    var inStr, esc := false, false;
    var bracket: nat, paren: nat := 0, 0;
    var i := 0;
    while i < |s|
      invariant 0 <= i <= |s|
      invariant out + ScanFrom(s, i, sep, ScanState(inStr, esc, bracket, paren), cur) == ScanFrom(s, 0, sep, Start, [])
    {
      ghost var st := ScanState(inStr, esc, bracket, paren);
      var c := s[i];
      if esc {
        cur := cur + [c];
        esc := false;
      } else if c == '\\' && inStr {
        cur := cur + [c];
        esc := true;
      } else if c == '"' {
        cur := cur + [c];
        inStr := !inStr;
      } else {
        if !inStr {
          if c == '[' {
            bracket := bracket + 1;
          } else if c == ']' {
            bracket := if bracket == 0 then 0 else bracket - 1;
          } else if c == '(' {
            paren := paren + 1;
          } else if c == ')' {
            paren := if paren == 0 then 0 else paren - 1;
          }
        }
        if !inStr && IsSeparator(sep, c) && bracket == 0 && paren == 0 {
          Base.AppendAssoc(out, Flush(cur), ScanFrom(s, i + 1, sep, st, []));
          if Trim(cur) != [] {
            out := out + [Trim(cur)];
          }
          cur := [];
        } else {
          assert !IsCut(st, sep, c) && Next(st, c) == ScanState(inStr, esc, bracket, paren);
          cur := cur + [c];
        }
      }
      i := i + 1;
    }
    if Trim(cur) != [] {
      out := out + [Trim(cur)];
    }
  }

  /** What `Flush` emits is non-empty, trimmed and drawn from the collected text. */
  lemma FlushPieces(cur: string)
    ensures forall p :: p in Flush(cur) ==>
      && p != [] && Trim(p) == p && |p| <= |cur|
      && forall ch :: ch in p ==> ch in cur
  {
    if Trim(cur) != [] {
      assert Flush(cur) == [Trim(cur)];
      TrimChars(cur);
      TrimIdempotent(cur);
    }
  }

  /** Every piece is non-empty, trimmed, no longer than what it was cut from, and made of its characters. */
  lemma {:induction false} ScanPieces(s: string, sep: Separator, st: ScanState, cur: string)
    ensures forall p :: p in Scan(s, sep, st, cur) ==>
      && p != [] && Trim(p) == p && |p| <= |cur| + |s|
      && forall ch :: ch in p ==> ch in cur || ch in s
    decreases |s|
  {
    FlushPieces(cur);
    if s != [] {
      var c := s[0];
      var rest := s[1..];
      assert forall ch :: ch in rest ==> ch in s;
      if IsCut(st, sep, c) {
        assert Scan(s, sep, st, cur) == Flush(cur) + Scan(rest, sep, st, []);
        ScanPieces(rest, sep, st, []);
      } else {
        var cur' := cur + [c];
        assert Scan(s, sep, st, cur) == Scan(rest, sep, Next(st, c), cur');
        assert forall ch :: ch in cur' ==> ch in cur || ch == c;
        ScanPieces(rest, sep, Next(st, c), cur');
      }
    }
  }

  /** The pieces of a split are non-empty, trimmed and drawn from the input. */
  lemma PiecesTrimmed(s: string, sep: Separator)
    ensures forall p :: p in TopLevelPieces(s, sep) ==>
      p != [] && Trim(p) == p && |p| <= |s| && forall ch :: ch in p ==> ch in s
  {
    ScanPieces(s, sep, Start, []);
  }

  /** The state after reading all of `s`. */
  function After(s: string, st: ScanState): ScanState
    decreases |s|
  {
    if s == [] then st else After(s[1..], Next(st, s[0]))
  }

  /** Reading `s` from `st` meets no top-level separator. */
  predicate NoCut(s: string, sep: Separator, st: ScanState)
    decreases |s|
  {
    s == [] || (!IsCut(st, sep, s[0]) && NoCut(s[1..], sep, Next(st, s[0])))
  }

  lemma {:induction false} AfterConcat(a: string, b: string, st: ScanState)
    ensures After(a + b, st) == After(b, After(a, st))
    decreases |a|
  {
    if a != [] {
      assert (a + b)[0] == a[0] && (a + b)[1..] == a[1..] + b;
      AfterConcat(a[1..], b, Next(st, a[0]));
    } else {
      assert a + b == b;
    }
  }

  lemma {:induction false} NoCutConcat(a: string, b: string, sep: Separator, st: ScanState)
    ensures NoCut(a + b, sep, st) <==> NoCut(a, sep, st) && NoCut(b, sep, After(a, st))
    decreases |a|
  {
    if a != [] {
      assert (a + b)[0] == a[0] && (a + b)[1..] == a[1..] + b;
      NoCutConcat(a[1..], b, sep, Next(st, a[0]));
    } else {
      assert a + b == b;
    }
  }

  /** A stretch without a top-level separator only extends the current piece. */
  lemma {:induction false} ScanNoCut(a: string, r: string, sep: Separator, st: ScanState, cur: string)
    requires NoCut(a, sep, st)
    ensures Scan(a + r, sep, st, cur) == Scan(r, sep, After(a, st), cur + a)
    decreases |a|
  {
    if a == [] {
      assert a + r == r && cur + a == cur;
    } else {
      assert (a + r)[0] == a[0] && (a + r)[1..] == a[1..] + r;
      ScanNoCut(a[1..], r, sep, Next(st, a[0]), cur + [a[0]]);
      assert cur + [a[0]] + a[1..] == cur + a;
    }
  }

  /** Text with no top-level separator is one piece, its trim, or nothing if it is blank. */
  lemma PiecesWithoutCut(s: string, sep: Separator)
    requires NoCut(s, sep, Start)
    ensures TopLevelPieces(s, sep) == Flush(s)
  {
    ScanNoCut(s, [], sep, Start, []);
    assert s + [] == s && [] + s == s;
  }

  /**
   * A top-level separator ends a piece and restarts the scan: the text before it
   * becomes one piece and the text after it is split on its own.
   */
  lemma PiecesAtCut(a: string, c: char, b: string, sep: Separator)
    requires NoCut(a, sep, Start) && After(a, Start) == Start && IsSeparator(sep, c)
    ensures TopLevelPieces(a + [c] + b, sep) == Flush(a) + TopLevelPieces(b, sep)
  {
    ScanNoCut(a, [c] + b, sep, Start, []);
    assert a + [c] + b == a + ([c] + b);
    assert ([c] + b)[0] == c && ([c] + b)[1..] == b;
    assert [] + a == a;
  }

  /** No quote, backslash, bracket or paren. */
  predicate Plain(x: string) {
    forall i :: 0 <= i < |x| ==> x[i] !in "\"\\[]()"
  }

  /** Plain text inside a string, a bracket or a paren leaves the state alone and is never cut. */
  lemma {:induction false} PlainInsideGroup(x: string, sep: Separator, st: ScanState)
    requires Plain(x) && !st.esc && (st.inStr || st.bracket > 0 || st.paren > 0)
    ensures NoCut(x, sep, st) && After(x, st) == st
    decreases |x|
  {
    if x != [] {
      assert x[0] !in "\"\\[]()";
      assert Next(st, x[0]) == st;
      PlainInsideGroup(x[1..], sep, st);
    }
  }

  /**
   * A bracket group, a paren group or a quoted string whose inside is plain text
   * is never split, whatever blanks or commas it contains.
   */
  lemma GroupIsOnePiece(open: char, x: string, close: char, sep: Separator)
    requires (open, close) in {('[', ']'), ('(', ')'), ('"', '"')}
    requires Plain(x)
    ensures TopLevelPieces([open] + x + [close], sep) == [[open] + x + [close]]
  {
    if open == '[' {
      GroupOpened(open, x, close, sep);
    } else if open == '(' {
      GroupOpened(open, x, close, sep);
    } else {
      GroupOpened(open, x, close, sep);
    }
  }

  /** The group argument for one opening character: it opens a group that `close` closes again. */
  lemma GroupOpened(open: char, x: string, close: char, sep: Separator)
    requires var inner := Next(Start, open);
      && !inner.esc && (inner.inStr || inner.bracket > 0 || inner.paren > 0)
      && Next(inner, close) == Start
      && !IsCut(Start, sep, open) && !IsCut(inner, sep, close)
    requires !IsSpace(open) && !IsSpace(close) && Plain(x)
    ensures TopLevelPieces([open] + x + [close], sep) == [[open] + x + [close]]
  {
    var g := [open] + x + [close];
    var inner := Next(Start, open);
    assert NoCut(x, sep, inner) && After(x, inner) == inner by { PlainInsideGroup(x, sep, inner); }
    assert NoCut([open], sep, Start) && After([open], Start) == inner by {
      assert [open][1..] == [];
      assert After([open], Start) == After([], inner);
    }
    assert NoCut([close], sep, inner) && After([close], inner) == Start by {
      assert [close][1..] == [];
      assert After([close], inner) == After([], Next(inner, close));
    }
    assert NoCut([open] + x, sep, Start) by {
      NoCutConcat([open], x, sep, Start);
      AfterConcat([open], x, Start);
    }
    assert NoCut(g, sep, Start) by {
      NoCutConcat([open] + x, [close], sep, Start);
      AfterConcat([open], x, Start);
    }
    assert TopLevelPieces(g, sep) == Flush(g) by { PiecesWithoutCut(g, sep); }
    GroupTrimmed(open, x, close);
  }

  lemma GroupTrimmed(open: char, x: string, close: char)
    requires !IsSpace(open) && !IsSpace(close)
    ensures Trim([open] + x + [close]) == [open] + x + [close]
  {
    var g := [open] + x + [close];
    assert g[0] == open && g[|g| - 1] == close;
    TrimOfTrimmed(g);
  }

  /** The character a rendering puts between pieces: a blank between pairs, a comma between arguments. */
  function SepChar(sep: Separator): (c: char)
    ensures IsSeparator(sep, c)
  {
    match sep
    case Blank => ' '
    case Comma => ','
  }

  /** A piece that survives a split unchanged: plain, with no white space and no separator. */
  predicate IsToken(p: string, sep: Separator) {
    p != [] && Plain(p) && forall i :: 0 <= i < |p| ==> !IsSpace(p[i]) && !IsSeparator(sep, p[i])
  }

  lemma {:induction false} TokenStaysAtStart(p: string, sep: Separator)
    requires Plain(p) && forall i :: 0 <= i < |p| ==> !IsSeparator(sep, p[i])
    ensures NoCut(p, sep, Start) && After(p, Start) == Start
    decreases |p|
  {
    if p != [] {
      assert p[0] !in "\"\\[]()";
      assert Next(Start, p[0]) == Start;
      assert forall i :: 0 <= i < |p[1..]| ==> p[1..][i] == p[i + 1];
      TokenStaysAtStart(p[1..], sep);
    }
  }

  /** Joining tokens with the separator and splitting again gives the tokens back. */
  lemma {:induction false} SplitJoinTokens(ps: seq<string>, sep: Separator)
    requires forall p :: p in ps ==> IsToken(p, sep)
    ensures TopLevelPieces(JoinWith(ps, SepChar(sep)), sep) == ps
    decreases |ps|
  {
    if ps == [] {
    } else {
      var p := ps[0];
      assert IsToken(p, sep);
      TokenStaysAtStart(p, sep);
      TrimOfTrimmed(p);
      if |ps| == 1 {
        PiecesWithoutCut(p, sep);
      } else {
        SplitJoinTokens(ps[1..], sep);
        PiecesAtCut(p, SepChar(sep), JoinWith(ps[1..], SepChar(sep)), sep);
        assert [p] + ps[1..] == ps;
      }
    }
  }

  // ---------------------------------------------------------------------------
  // splitContentAndInlineStyle

  /** The content scanner's state: inside a string, just after a backslash in one, and the `(` depth. */
  datatype ContentState = ContentState(inStr: bool, esc: bool, paren: nat)

  const ContentStart := ContentState(false, false, 0)

  /** A backslash outside a string is skipped; a `{` inside parens is ignored. */
  function ContentNext(st: ContentState, c: char): ContentState {
    if st.esc then st.(esc := false)
    else if c == '\\' then (if st.inStr then st.(esc := true) else st)
    else if c == '"' then st.(inStr := !st.inStr)
    else if st.inStr then st
    else if c == '(' then st.(paren := st.paren + 1)
    else if c == ')' then st.(paren := if st.paren == 0 then 0 else st.paren - 1)
    else st
  }

  /** `c` opens the inline style: a `{` outside strings and parens. */
  predicate OpensStyle(st: ContentState, c: char) {
    !st.esc && !st.inStr && st.paren == 0 && c == '{'
  }

  /** The index of the first `{` that opens the inline style at or after `i`, or -1. */
  function StyleBrace(s: string, i: nat, st: ContentState): (r: int)
    requires i <= |s|
    ensures r == -1 || (i <= r < |s| && s[r] == '{')
    decreases |s| - i
  {
    if i == |s| then -1
    else if OpensStyle(st, s[i]) then i
    else StyleBrace(s, i + 1, ContentNext(st, s[i]))
  }

  /** What `splitContentAndInlineStyle` returns: the trimmed content and the trimmed rest from its `{`. */
  function ContentSplit(s: string): (string, string) {
    var k := StyleBrace(s, 0, ContentStart);
    if k < 0 then (Trim(s), []) else (Trim(s[..k]), Trim(s[k..]))
  }

  /** The character loop of `splitContentAndInlineStyle`, which returns at the first opening brace. */
  method SplitContentAndInlineStyle(s: string) returns (content: string, rest: string)
    ensures (content, rest) == ContentSplit(s)
  {
    var inStr, esc := false, false;
    var parenDepth: nat := 0;
    var i := 0;
    while i < |s|
      invariant 0 <= i <= |s|
      invariant StyleBrace(s, i, ContentState(inStr, esc, parenDepth)) == StyleBrace(s, 0, ContentStart)
    {
      var c := s[i];
      if esc {
        esc := false;
      } else if c == '\\' {
        if inStr {
          esc := true;
        }
      } else if c == '"' {
        inStr := !inStr;
      } else if !inStr {
        if c == '(' {
          parenDepth := parenDepth + 1;
        } else if c == ')' {
          parenDepth := if parenDepth == 0 then 0 else parenDepth - 1;
        } else if c == '{' && parenDepth == 0 {
          return Trim(s[..i]), Trim(s[i..]);
        }
      }
      i := i + 1;
    }
    return Trim(s), [];
  }

  /** A string that starts with `{` trims to one that still starts with it. */
  lemma TrimKeepsBrace(t: string)
    requires t != [] && t[0] == '{'
    ensures Trim(t) != [] && Trim(t)[0] == '{'
  {
    assert TrimStart(t) == t;
    assert !IsSpace(t[0]);
    TrimEndDrops(t);
  }

  /** When an inline style is present it is the text from the brace on, so it starts with `{`. */
  lemma ContentSplitShape(s: string)
    ensures ContentSplit(s).1 == [] <==> StyleBrace(s, 0, ContentStart) < 0
    ensures ContentSplit(s).1 != [] ==> ContentSplit(s).1[0] == '{'
  {
    var k := StyleBrace(s, 0, ContentStart);
    if k >= 0 {
      TrimKeepsBrace(s[k..]);
    }
  }

  lemma {:induction false} NoBraceNoStyle(s: string, i: nat, st: ContentState)
    requires i <= |s| && '{' !in s
    ensures StyleBrace(s, i, st) == -1
    decreases |s| - i
  {
    if i < |s| {
      assert s[i] in s;
      NoBraceNoStyle(s, i + 1, ContentNext(st, s[i]));
    }
  }

  /** Without a `{` the whole text is content. */
  lemma ContentWithoutBrace(s: string)
    requires '{' !in s
    ensures ContentSplit(s) == (Trim(s), [])
  {
    NoBraceNoStyle(s, 0, ContentStart);
  }

  /** Reading a quoted string without backslashes or quotes inside leaves the scanner where it started. */
  lemma {:induction false} QuotedSkipsBraces(s: string, i: nat, j: nat, st: ContentState)
    requires i <= j <= |s| && st.inStr && !st.esc
    requires forall k :: i <= k < j ==> s[k] != '"' && s[k] != '\\'
    ensures StyleBrace(s, i, st) == StyleBrace(s, j, st)
    decreases j - i
  {
    if i < j {
      assert ContentNext(st, s[i]) == st;
      QuotedSkipsBraces(s, i + 1, j, st);
    }
  }

  /** Where the brace after a closed quote is found, and what the split then returns. */
  lemma QuotedPrefix(x: string, y: string)
    requires forall k :: 0 <= k < |x| ==> x[k] != '"' && x[k] != '\\'
    ensures StyleBrace("\"" + x + "\" {" + y, 0, ContentStart) == |x| + 3
  {
    var s := "\"" + x + "\" {" + y;
    var inQ := ContentStart.(inStr := true);
    assert s[0] == '"' && !OpensStyle(ContentStart, s[0]) && ContentNext(ContentStart, s[0]) == inQ;
    forall k | 1 <= k < |x| + 1 ensures s[k] != '"' && s[k] != '\\' {
      assert s[k] == x[k - 1];
    }
    QuotedSkipsBraces(s, 1, |x| + 1, inQ);
    assert s[|x| + 1] == '"' && s[|x| + 2] == ' ' && s[|x| + 3] == '{';
    assert StyleBrace(s, |x| + 3, ContentStart) == |x| + 3;
  }

  /**
   * A brace inside quoted content does not open the style; the first brace after
   * the closing quote does: `"a {b}" {w:1}` splits into `"a {b}"` and `{w:1}`.
   */
  lemma QuotedContentThenStyle(x: string, y: string)
    requires forall k :: 0 <= k < |x| ==> x[k] != '"' && x[k] != '\\'
    ensures ContentSplit("\"" + x + "\" {" + y) == ("\"" + x + "\"", Trim("{" + y))
  {
    var q := "\"" + x + "\"";
    var s := q + " {" + y;
    assert s == "\"" + x + "\" {" + y;
    QuotedPrefix(x, y);
    var k := |x| + 3;
    assert s[..k] == q + " ";
    assert s[k..] == "{" + y;
    TrimOfTrimmed(q);
    assert TrimStart(q + " ") == q + " ";
    assert (q + " ")[..|q|] == q;
    assert TrimEnd(q + " ") == TrimEnd(q);
  }
}
