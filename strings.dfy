/**
 * String primitives of the JavaScript runtime that the parser relies on:
 * `trim`, `startsWith`, `endsWith`, `indexOf`, `split`, and the character
 * classes behind the parser's regular expressions.
 */
module Strings {

  /** JavaScript's WhiteSpace and LineTerminator characters: what `trim()` strips and `\s` matches. */
  predicate IsSpace(c: char) {
    || c == ' ' || c == '\t' || c == '\n' || c == '\r' || c == '\U{000B}' || c == '\U{000C}'
    || c == '\U{00A0}' || c == '\U{1680}' || ('\U{2000}' <= c <= '\U{200A}')
    || c == '\U{2028}' || c == '\U{2029}' || c == '\U{202F}' || c == '\U{205F}'
    || c == '\U{3000}' || c == '\U{FEFF}'
  }

  /** The characters the regular-expression `.` does not match. */
  predicate IsLineTerminator(c: char) {
    c == '\n' || c == '\r' || c == '\U{2028}' || c == '\U{2029}'
  }

  /** `\d` */
  predicate IsDigit(c: char) {
    '0' <= c <= '9'
  }

  predicate IsLetter(c: char) {
    ('A' <= c <= 'Z') || ('a' <= c <= 'z')
  }

  predicate AllDigits(s: string) {
    forall i :: 0 <= i < |s| ==> IsDigit(s[i])
  }

  function TrimStart(s: string): (r: string)
    ensures |r| <= |s| && r == s[|s| - |r|..]
    ensures r != [] ==> !IsSpace(r[0])
  {
    if s != [] && IsSpace(s[0]) then TrimStart(s[1..]) else s
  }

  /** What `TrimStart` drops is white space. */
  lemma {:induction false} TrimStartDrops(s: string)
    ensures forall i :: 0 <= i < |s| - |TrimStart(s)| ==> IsSpace(s[i])
    decreases |s|
  {
    if s != [] && IsSpace(s[0]) {
      TrimStartDrops(s[1..]);
      forall i | 1 <= i < |s| - |TrimStart(s)| ensures IsSpace(s[i]) {
        assert s[i] == s[1..][i - 1];
      }
    }
  }

  function TrimEnd(s: string): (r: string)
    ensures |r| <= |s| && r == s[..|r|]
    ensures r != [] ==> !IsSpace(r[|r| - 1])
  {
    if s != [] && IsSpace(s[|s| - 1]) then TrimEnd(s[..|s| - 1]) else s
  }

  /** What `TrimEnd` drops is white space. */
  lemma {:induction false} TrimEndDrops(s: string)
    ensures forall i :: |TrimEnd(s)| <= i < |s| ==> IsSpace(s[i])
    decreases |s|
  {
    if s != [] && IsSpace(s[|s| - 1]) {
      TrimEndDrops(s[..|s| - 1]);
      forall i | |TrimEnd(s)| <= i < |s| - 1 ensures IsSpace(s[i]) {
        assert s[i] == s[..|s| - 1][i];
      }
    }
  }

  /** `s.trim()`: the substring left after stripping leading and trailing white space. */
  function Trim(s: string): (r: string)
    ensures |r| <= |TrimStart(s)| <= |s|
    ensures r != [] ==> !IsSpace(r[0]) && !IsSpace(r[|r| - 1])
    ensures r == s[|s| - |TrimStart(s)|..|s| - |TrimStart(s)| + |r|]
  {
    var t := TrimStart(s);
    var r := TrimEnd(t);
    assert r == s[|s| - |t|..][..|r|];
    r
  }

  /** Trimming keeps only characters of the input. */
  lemma TrimChars(s: string)
    ensures forall c :: c in Trim(s) ==> c in s
  {
    var r := Trim(s);
    var a := |s| - |TrimStart(s)|;
    forall c | c in r ensures c in s {
      var k :| 0 <= k < |r| && r[k] == c;
      assert s[a + k] == c;
    }
  }

  /** What trimming keeps: only characters of the input, and nothing exactly when the input is all white space. */
  lemma TrimFacts(s: string)
    ensures forall c :: c in Trim(s) ==> c in s
    ensures (forall i :: 0 <= i < |s| ==> IsSpace(s[i])) <==> Trim(s) == []
  {
    var t := TrimStart(s);
    var r := Trim(s);
    var a := |s| - |t|;
    TrimStartDrops(s);
    TrimEndDrops(t);
    TrimChars(s);
    if r == [] {
      assert t == [];
    } else {
      assert !IsSpace(s[a]);
    }
  }

  /** A string without leading or trailing white space is its own trim. */
  lemma TrimOfTrimmed(s: string)
    requires s != [] ==> !IsSpace(s[0]) && !IsSpace(s[|s| - 1])
    ensures Trim(s) == s
  {
  }

  lemma TrimIdempotent(s: string)
    ensures Trim(Trim(s)) == Trim(s)
  {
    TrimOfTrimmed(Trim(s));
  }

  predicate StartsWith(s: string, p: string) {
    |p| <= |s| && s[..|p|] == p
  }

  predicate EndsWith(s: string, p: string) {
    |p| <= |s| && s[|s| - |p|..] == p
  }

  /** `s.indexOf(c)`: the first index of `c`, or -1. */
  function IndexOf(s: string, c: char): (r: int)
    ensures -1 <= r < |s|
    ensures r >= 0 ==> s[r] == c && c !in s[..r]
    ensures r == -1 <==> c !in s
  {
    if s == [] then -1
    else if s[0] == c then 0
    else
      var k := IndexOf(s[1..], c);
      assert s[1..][..if k < 0 then 0 else k] == s[1..1 + if k < 0 then 0 else k];
      if k < 0 then -1 else 1 + k
  }

  /** `s.split(c)` for a one-character separator. */
  function SplitOn(s: string, c: char): (r: seq<string>)
    ensures |r| >= 1
    ensures forall p :: p in r ==> c !in p
    decreases |s|
  {
    var k := IndexOf(s, c);
    if k < 0 then [s] else [s[..k]] + SplitOn(s[k + 1..], c)
  }

  /** `parts.join(c)` */
  function JoinWith(parts: seq<string>, c: char): string {
    if parts == [] then []
    else if |parts| == 1 then parts[0]
    else parts[0] + [c] + JoinWith(parts[1..], c)
  }

  lemma SeqSplitAt(s: string, k: nat)
    requires k < |s|
    ensures s == s[..k] + [s[k]] + s[k + 1..]
  {
  }

  /** Splitting on a character and joining back on it gives the string back. */
  lemma {:induction false} JoinSplit(s: string, c: char)
    ensures JoinWith(SplitOn(s, c), c) == s
    decreases |s|
  {
    var k := IndexOf(s, c);
    if k >= 0 {
      var tail := s[k + 1..];
      var rest := SplitOn(tail, c);
      JoinSplit(tail, c);
      var parts := [s[..k]] + rest;
      assert SplitOn(s, c) == parts;
      assert |parts| >= 2 && parts[0] == s[..k] && parts[1..] == rest;
      assert JoinWith(parts, c) == s[..k] + [c] + tail;
      SeqSplitAt(s, k);
    }
  }

  /** A slice holds only characters of the whole. */
  lemma InSlice(s: string, a: nat, b: nat)
    requires a <= b <= |s|
    ensures forall c :: c in s[a..b] ==> c in s
  {
    forall c | c in s[a..b] ensures c in s {
      var k :| 0 <= k < b - a && s[a..b][k] == c;
      assert s[a + k] == c;
    }
  }

  /** Splitting pieces joined on a character they do not contain gives the pieces back. */
  lemma {:induction false} SplitJoin(parts: seq<string>, c: char)
    requires |parts| >= 1 && forall p :: p in parts ==> c !in p
    ensures SplitOn(JoinWith(parts, c), c) == parts
    decreases |parts|
  {
    if |parts| >= 2 {
      var p := parts[0];
      var rest := JoinWith(parts[1..], c);
      var s := p + [c] + rest;
      assert JoinWith(parts, c) == s;
      assert IndexOf(s, c) == |p| by {
        assert s[|p|] == c;
        assert s[..|p|] == p;
      }
      assert s[..|p|] == p && s[|p| + 1..] == rest;
      SplitJoin(parts[1..], c);
      assert [p] + parts[1..] == parts;
    }
  }

  /** Drops one trailing carriage return. */
  function DropCR(s: string): string {
    if s != [] && s[|s| - 1] == '\r' then s[..|s| - 1] else s
  }

  /** `src.split(/\r?\n/)`: lines end at a line feed; a carriage return right before it is dropped. */
  function SplitLines(s: string): (r: seq<string>)
    ensures |r| >= 1
    decreases |s|
  {
    var k := IndexOf(s, '\n');
    if k < 0 then [s] else [DropCR(s[..k])] + SplitLines(s[k + 1..])
  }

  /** The line-feed positions split the text: a text without one is a single line. */
  lemma SplitLinesCount(s: string)
    ensures '\n' !in s ==> SplitLines(s) == [s]
    ensures '\n' !in s ==> SplitOn(s, '\n') == [s]
  {
  }

  /** `s.split(c).filter(Boolean)`: the pieces between separators, empty pieces dropped. */
  function NonEmptyPieces(s: string, c: char): (r: seq<string>)
    ensures forall p :: p in r ==> p != [] && c !in p
  {
    DropEmpty(SplitOn(s, c))
  }

  function DropEmpty(ps: seq<string>): (r: seq<string>)
    ensures forall p :: p in r ==> p != [] && p in ps
    ensures |r| <= |ps|
  {
    if ps == [] then []
    else if ps[0] == [] then DropEmpty(ps[1..])
    else [ps[0]] + DropEmpty(ps[1..])
  }

  /** The end of the run of non-space characters that starts at `i`. */
  function WordEnd(t: string, i: nat): (k: nat)
    requires i <= |t|
    ensures i <= k <= |t| && (k == |t| || IsSpace(t[k]))
    decreases |t| - i
  {
    if i == |t| || IsSpace(t[i]) then i else WordEnd(t, i + 1)
  }

  /** No space comes before the end of the run. */
  lemma {:induction false} WordEndRun(t: string, i: nat)
    requires i <= |t|
    ensures forall j :: i <= j < WordEnd(t, i) ==> !IsSpace(t[j])
    decreases |t| - i
  {
    if i < |t| && !IsSpace(t[i]) {
      WordEndRun(t, i + 1);
    }
  }

  /** `s.split(/\s+/).filter(Boolean)`: the maximal runs of non-space characters, in order. */
  function Words(s: string): seq<string>
    decreases |s|
  {
    var t := TrimStart(s);
    if t == [] then []
    else
      var k := WordEnd(t, 0);
      [t[..k]] + Words(t[k..])
  }

  /** A non-empty run of non-space characters. */
  predicate IsWord(w: string) {
    w != [] && forall j :: 0 <= j < |w| ==> !IsSpace(w[j])
  }

  /** Every word is a non-empty run of non-space characters. */
  lemma {:induction false} WordsAreTokens(s: string)
    ensures forall w :: w in Words(s) ==> IsWord(w)
    decreases |s|
  {
    var t := TrimStart(s);
    if t != [] {
      var k := WordEnd(t, 0);
      WordEndRun(t, 0);
      assert IsWord(t[..k]);
      WordsAreTokens(t[k..]);
      assert Words(s) == [t[..k]] + Words(t[k..]);
    }
  }

  /** A single run of non-space characters is one word. */
  lemma WordsOfToken(a: string)
    requires IsWord(a)
    ensures Words(a) == [a]
  {
    TrimStartKeeps(a);
    WordEndToEnd(a, 0);
    assert a[..|a|] == a;
    assert a[|a|..] == [];
    assert TrimStart([]) == [];
  }

  /** A token followed by a blank is the first word, and the words of the rest follow it. */
  lemma WordsCons(a: string, rest: string)
    requires IsWord(a)
    ensures Words(a + " " + rest) == [a] + Words(rest)
  {
    var s := a + " " + rest;
    assert s[0] == a[0];
    forall j | 0 <= j < |a| ensures !IsSpace(s[j]) {
      assert s[j] == a[j];
    }
    WordEndAt(s, 0, |a|);
    WordsUnfold(s);
    assert s[..|a|] == a;
    assert s[|a|..] == " " + rest;
    WordsAfterBlank(rest);
  }

  /** Two tokens around one blank are two words. */
  lemma WordsOfPair(a: string, b: string)
    requires IsWord(a)
    requires IsWord(b)
    ensures Words(a + " " + b) == [a, b]
  {
    assert Words(a + " " + b) == [a] + Words(b) by { WordsCons(a, b); }
    assert Words(b) == [b] by { WordsOfToken(b); }
    assert [a] + [b] == [a, b];
  }

  lemma WordsUnfold(s: string)
    requires s != [] && !IsSpace(s[0])
    ensures Words(s) == [s[..WordEnd(s, 0)]] + Words(s[WordEnd(s, 0)..])
  {
    TrimStartKeeps(s);
  }

  lemma WordsAfterBlank(rest: string)
    ensures Words(" " + rest) == Words(rest)
  {
    var u := " " + rest;
    assert u[1..] == rest;
    assert TrimStart(u) == TrimStart(rest);
  }

  lemma TrimStartKeeps(s: string)
    requires s != [] && !IsSpace(s[0])
    ensures TrimStart(s) == s
  {
  }

  lemma {:induction false} WordEndToEnd(t: string, i: nat)
    requires i <= |t| && forall j :: i <= j < |t| ==> !IsSpace(t[j])
    ensures WordEnd(t, i) == |t|
    decreases |t| - i
  {
    if i < |t| {
      WordEndToEnd(t, i + 1);
    }
  }

  lemma {:induction false} WordEndAt(t: string, i: nat, k: nat)
    requires i <= k < |t| && IsSpace(t[k]) && forall j :: i <= j < k ==> !IsSpace(t[j])
    ensures WordEnd(t, i) == k
    decreases k - i
  {
    if i < k {
      WordEndAt(t, i + 1, k);
    }
  }

  /** The `-?\d+(\.\d+)?` test: an optional minus, digits, then optionally a dot and digits. */
  predicate IsNumberLiteral(t: string) {
    var u := if t != [] && t[0] == '-' then t[1..] else t;
    var k := IndexOf(u, '.');
    if k < 0 then u != [] && AllDigits(u)
    else 0 < k < |u| - 1 && AllDigits(u[..k]) && AllDigits(u[k + 1..])
  }

  /** A number literal starts with a minus sign or a digit. */
  lemma NumberLiteralStart(t: string)
    requires IsNumberLiteral(t)
    ensures t != [] && (t[0] == '-' || IsDigit(t[0]))
  {
    var u := if t != [] && t[0] == '-' then t[1..] else t;
    if t != [] && t[0] == '-' {
    } else {
      var k := IndexOf(u, '.');
      if k >= 0 {
        assert u[..k][0] == u[0];
      }
    }
  }

  function DigitValue(c: char): nat
    requires IsDigit(c)
  {
    (c as int - '0' as int) as nat
  }

  /** The value of a run of decimal digits, most significant first. */
  function DigitsValue(s: string): nat
    requires AllDigits(s)
  {
    if s == [] then 0 else 10 * DigitsValue(s[..|s| - 1]) + DigitValue(s[|s| - 1])
  }

  function Pow10(n: nat): (r: nat)
    ensures r >= 1
  {
    if n == 0 then 1 else 10 * Pow10(n - 1)
  }

  /** `Number(t)` on a literal that passed IsNumberLiteral, as an exact real. */
  function NumberValue(t: string): real
    requires IsNumberLiteral(t)
  {
    var neg := t != [] && t[0] == '-';
    var u := if neg then t[1..] else t;
    var k := IndexOf(u, '.');
    var mag :=
      if k < 0 then DigitsValue(u) as real
      else DigitsValue(u[..k]) as real + DigitsValue(u[k + 1..]) as real / Pow10(|u| - k - 1) as real;
    if neg then -mag else mag
  }

  /** A literal's value is determined by its digits: "12.5" is 12.5. */
  lemma DecimalLiteral()
    ensures IsNumberLiteral("12.5") && NumberValue("12.5") == 12.5
  {
    assert IndexOf("12.5", '.') == 2;
    assert "12.5"[..2] == "12";
    assert "12.5"[3..] == "5";
    assert "12"[..1] == "1";
    assert DigitsValue("12") == 12;
  }

  /** A leading minus negates the value: "-3" is -3. */
  lemma NegativeLiteral()
    ensures IsNumberLiteral("-3") && NumberValue("-3") == -3.0
  {
    assert "-3"[1..] == "3";
    assert IndexOf("3", '.') == -1;
    assert "3"[..0] == "";
  }

  /** A dot needs digits on both sides, and a lone minus is no number. */
  lemma MalformedLiterals()
    ensures !IsNumberLiteral("1.") && !IsNumberLiteral(".5") && !IsNumberLiteral("-")
  {
    assert IndexOf(".5", '.') == 0;
    assert IndexOf("1.", '.') == 1;
    assert "-"[1..] == "";
  }
}
