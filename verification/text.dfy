/**
  ASCII models of the Python string primitives the generator relies on:
  `str.isspace`, `str.upper`/`lower` on single characters, `str.strip`,
  `str.split()` with no argument, `" ".join`, `str.title` and substring search.
  Characters outside ASCII are treated as uncased, non-space characters.
 */
module Text {

  /** `str.isspace` on ASCII: space, tab, line feed, vertical tab, form feed,
      carriage return and the separators 0x1c-0x1f. */
  predicate IsSpace(c: char) {
    c == ' ' || ('\t' <= c <= '\r') || (28 <= c as int <= 31)
  }

  predicate IsUpper(c: char) { 'A' <= c <= 'Z' }
  predicate IsLower(c: char) { 'a' <= c <= 'z' }
  predicate IsLetter(c: char) { IsUpper(c) || IsLower(c) }
  predicate IsDigit(c: char) { '0' <= c <= '9' }

  function UpperChar(c: char): (u: char)
    ensures !IsLower(u)
    ensures IsLetter(c) <==> IsUpper(u)
  {
    if IsLower(c) then (c as int - 32) as char else c
  }

  function LowerChar(c: char): (l: char)
    ensures !IsUpper(l)
    ensures IsLetter(c) <==> IsLower(l)
  {
    if IsUpper(c) then (c as int + 32) as char else c
  }

  /** `str.lower` on ASCII. */
  function Lower(s: string): (r: string)
    ensures |r| == |s|
    ensures forall k :: 0 <= k < |s| ==> r[k] == LowerChar(s[k])
  {
    if s == [] then [] else [LowerChar(s[0])] + Lower(s[1..])
  }

  /* ---------- strip ---------- */

  /** `str.lstrip()`: drops the leading whitespace run. */
  function TrimStart(s: string): (r: string)
    ensures r == [] || !IsSpace(r[0])
    ensures |r| <= |s| && r == s[|s| - |r|..]
    ensures forall k :: 0 <= k < |s| - |r| ==> IsSpace(s[k])
  {
    if s != [] && IsSpace(s[0]) then TrimStart(s[1..]) else s
  }

  /** `str.rstrip()`: drops the trailing whitespace run. */
  function TrimEnd(s: string): (r: string)
    ensures r == [] || !IsSpace(r[|r| - 1])
    ensures |r| <= |s| && r == s[..|r|]
    ensures forall k :: |r| <= k < |s| ==> IsSpace(s[k])
  {
    if s != [] && IsSpace(s[|s| - 1]) then TrimEnd(s[..|s| - 1]) else s
  }

  /** `str.strip()`. */
  function Strip(s: string): string {
    TrimEnd(TrimStart(s))
  }

  /** A token is its own stripped form. */
  lemma StripOfWord(w: string)
    requires IsWord(w)
    ensures Strip(w) == w
  {
    assert TrimStart(w) == w;
    assert TrimEnd(w) == w;
  }

  /** Whitespace strips to nothing. */
  lemma StripOfSpaces(t: string)
    requires forall k :: 0 <= k < |t| ==> IsSpace(t[k])
    ensures Strip(t) == ""
  {
  }

  /* ---------- split / join ---------- */

  /** A token of `str.split()`: non-empty and whitespace-free. */
  predicate IsWord(w: string) {
    w != [] && forall k :: 0 <= k < |w| ==> !IsSpace(w[k])
  }

  /** Length of the leading run of non-whitespace characters. */
  function WordLen(s: string): (n: nat)
    ensures n <= |s|
    ensures forall k :: 0 <= k < n ==> !IsSpace(s[k])
    ensures n == |s| || IsSpace(s[n])
  {
    if s == [] || IsSpace(s[0]) then 0 else 1 + WordLen(s[1..])
  }

  /** `str.split()` with no separator: the maximal runs of non-whitespace characters. */
  function Split(s: string): (ws: seq<string>)
    ensures forall i :: 0 <= i < |ws| ==> IsWord(ws[i])
    decreases |s|
  {
    if s == [] then []
    else if IsSpace(s[0]) then Split(s[1..])
    else
      var n := WordLen(s);
      [s[..n]] + Split(s[n..])
  }

  /** `" ".join(parts)`. */
  function Join(parts: seq<string>): string {
    if |parts| == 0 then ""
    else if |parts| == 1 then parts[0]
    else parts[0] + " " + Join(parts[1..])
  }

  /** The tokens of every part, in order. */
  function SplitEach(parts: seq<string>): seq<string> {
    if parts == [] then [] else Split(parts[0]) + SplitEach(parts[1..])
  }

  /** `re.search(r"\s", s)` succeeds. */
  predicate HasSpace(s: string) {
    exists k :: 0 <= k < |s| && IsSpace(s[k])
  }

  /** `" ".join(s.split()).strip()`: the whitespace cleanup applied to names. */
  function Clean(s: string): string {
    Strip(Join(Split(s)))
  }

  /** No leading, trailing or doubled whitespace, and every whitespace character is a plain space. */
  ghost predicate WellSpaced(t: string) {
    forall k :: 0 <= k < |t| && IsSpace(t[k]) ==>
      t[k] == ' ' && 0 < k < |t| - 1 && !IsSpace(t[k - 1]) && !IsSpace(t[k + 1])
  }

  lemma {:induction false} WordLenBeforeSpace(a: string, t: string)
    requires t != [] && IsSpace(t[0])
    ensures WordLen(a + t) == WordLen(a)
    decreases |a|
  {
    if a != [] {
      assert (a + t)[1..] == a[1..] + t;
      WordLenBeforeSpace(a[1..], t);
    }
  }

  lemma {:induction false} SplitOfSpaces(t: string)
    requires forall k :: 0 <= k < |t| ==> IsSpace(t[k])
    ensures Split(t) == []
    decreases |t|
  {
    if t != [] {
      SplitOfSpaces(t[1..]);
    }
  }

  /** A whitespace character separates tokens: splitting around it splits each side. */
  lemma {:induction false} SplitAroundSpace(a: string, c: char, b: string)
    requires IsSpace(c)
    ensures Split(a + [c] + b) == Split(a) + Split(b)
    decreases |a|
  {
    var s := a + [c] + b;
    if a == [] {
      assert s[1..] == b;
    } else if IsSpace(a[0]) {
      assert s[1..] == a[1..] + [c] + b;
      SplitAroundSpace(a[1..], c, b);
    } else {
      assert s == a + ([c] + b);
      WordLenBeforeSpace(a, [c] + b);
      var n := WordLen(a);
      assert s[..n] == a[..n];
      assert s[n..] == a[n..] + [c] + b;
      SplitAroundSpace(a[n..], c, b);
    }
  }

  /** Trailing whitespace contributes no token. */
  lemma {:induction false} SplitBeforeSpaces(a: string, t: string)
    requires forall k :: 0 <= k < |t| ==> IsSpace(t[k])
    ensures Split(a + t) == Split(a)
    decreases |a|
  {
    if a == [] {
      assert a + t == t;
      SplitOfSpaces(t);
    } else if IsSpace(a[0]) {
      assert (a + t)[1..] == a[1..] + t;
      SplitBeforeSpaces(a[1..], t);
    } else {
      var n := WordLen(a);
      if t != [] {
        WordLenBeforeSpace(a, t);
      } else {
        assert a + t == a;
      }
      assert (a + t)[..n] == a[..n];
      assert (a + t)[n..] == a[n..] + t;
      SplitBeforeSpaces(a[n..], t);
    }
  }

  lemma {:induction false} SplitAfterSpaces(t: string, a: string)
    requires forall k :: 0 <= k < |t| ==> IsSpace(t[k])
    ensures Split(t + a) == Split(a)
    decreases |t|
  {
    if t != [] {
      assert (t + a)[1..] == t[1..] + a;
      SplitAfterSpaces(t[1..], a);
    } else {
      assert t + a == a;
    }
  }

  lemma TrimStartKeepsTokens(s: string)
    ensures Split(TrimStart(s)) == Split(s)
  {
    var t := TrimStart(s);
    var p := s[..|s| - |t|];
    assert s == p + t;
    SplitAfterSpaces(p, t);
  }

  lemma TrimEndKeepsTokens(t: string)
    ensures Split(TrimEnd(t)) == Split(t)
  {
    var u := TrimEnd(t);
    var q := t[|u|..];
    assert t == u + q;
    SplitBeforeSpaces(u, q);
  }

  /** Stripping never changes the tokens. */
  lemma StripKeepsTokens(s: string)
    ensures Split(Strip(s)) == Split(s)
  {
    TrimStartKeepsTokens(s);
    TrimEndKeepsTokens(TrimStart(s));
  }

  lemma SplitOfWord(w: string)
    requires IsWord(w)
    ensures Split(w) == [w]
  {
    assert WordLen(w) == |w|;
    assert w[..|w|] == w;
    assert w[|w|..] == [];
  }

  /** Splitting a space-joined list yields the tokens of every part, in order. */
  lemma {:induction false} SplitJoin(parts: seq<string>)
    ensures Split(Join(parts)) == SplitEach(parts)
  {
    if |parts| == 0 {
    } else if |parts| == 1 {
      assert SplitEach(parts[1..]) == [];
      assert SplitEach(parts) == Split(parts[0]) + [];
    } else {
      SplitAroundSpace(parts[0], ' ', Join(parts[1..]));
      assert Join(parts) == parts[0] + [' '] + Join(parts[1..]);
      SplitJoin(parts[1..]);
    }
  }

  lemma {:induction false} SplitEachOfWords(ws: seq<string>)
    requires forall i :: 0 <= i < |ws| ==> IsWord(ws[i])
    ensures SplitEach(ws) == ws
  {
    if ws != [] {
      SplitOfWord(ws[0]);
      SplitEachOfWords(ws[1..]);
      assert ws == [ws[0]] + ws[1..];
    }
  }

  /** Round trip: joining tokens with single spaces and splitting again gives the tokens back. */
  lemma SplitJoinWords(ws: seq<string>)
    requires forall i :: 0 <= i < |ws| ==> IsWord(ws[i])
    ensures Split(Join(ws)) == ws
  {
    SplitJoin(ws);
    SplitEachOfWords(ws);
  }

  lemma {:induction false} JoinWordsShape(ws: seq<string>)
    requires |ws| > 0
    requires forall i :: 0 <= i < |ws| ==> IsWord(ws[i])
    ensures var t := Join(ws); |t| > 0 && !IsSpace(t[0]) && !IsSpace(t[|t| - 1])
    ensures WellSpaced(Join(ws))
    ensures HasSpace(Join(ws)) <==> |ws| >= 2
  {
    var t := Join(ws);
    if |ws| == 1 {
      assert t == ws[0];
      assert !HasSpace(t);
    } else {
      var w := ws[0];
      var rest := Join(ws[1..]);
      JoinWordsShape(ws[1..]);
      assert t == w + " " + rest;
      assert t[|w|] == ' ';
      assert HasSpace(t);
      forall k | 0 <= k < |t| && IsSpace(t[k])
        ensures t[k] == ' ' && 0 < k < |t| - 1 && !IsSpace(t[k - 1]) && !IsSpace(t[k + 1])
      {
        if k == |w| {
          assert t[k - 1] == w[|w| - 1];
          assert t[k + 1] == rest[0];
        } else if k > |w| {
          assert t[k] == rest[k - |w| - 1];
          if k - |w| - 1 > 0 {
            assert t[k - 1] == rest[k - |w| - 2];
          }
        }
      }
    }
  }

  /** The cleanup gives the single-space join of the tokens, keeps the tokens, has no leading,
      trailing or doubled whitespace, and contains whitespace exactly when there are two tokens or more. */
  lemma CleanShape(s: string)
    ensures Clean(s) == Join(Split(s))
    ensures Split(Clean(s)) == Split(s)
    ensures WellSpaced(Clean(s))
    ensures HasSpace(Clean(s)) <==> |Split(s)| >= 2
  {
    var ws := Split(s);
    var t := Join(ws);
    if ws == [] {
      assert t == "";
    } else {
      JoinWordsShape(ws);
      assert TrimStart(t) == t;
      assert TrimEnd(t) == t;
    }
    SplitJoinWords(ws);
  }

  /* ---------- capitalisation ---------- */

  /** The generator's `_capitalize`: upper-cases the first character only. */
  function Capitalize(s: string): (r: string)
    ensures |r| == |s|
    ensures |s| > 0 ==> r[0] == UpperChar(s[0])
    ensures forall k :: 1 <= k < |s| ==> r[k] == s[k]
  {
    if |s| == 0 then ""
    else if |s| == 1 then [UpperChar(s[0])]
    else [UpperChar(s[0])] + s[1..]
  }

  lemma CapitalizeIdempotent(s: string)
    ensures Capitalize(Capitalize(s)) == Capitalize(s)
  {
    var c := Capitalize(s);
    if |s| > 0 {
      assert UpperChar(c[0]) == c[0];
      assert Capitalize(c) == c;
    }
  }

  /** `str.title` on ASCII, given whether the character before `s` was a letter. */
  function TitleAfter(s: string, prevCased: bool): (r: string)
    ensures |r| == |s|
    ensures forall k :: 0 <= k < |s| ==>
      r[k] == (if (if k == 0 then prevCased else IsLetter(s[k - 1])) then LowerChar(s[k]) else UpperChar(s[k]))
  {
    if s == [] then []
    else [if prevCased then LowerChar(s[0]) else UpperChar(s[0])] + TitleAfter(s[1..], IsLetter(s[0]))
  }

  /** `str.title` on ASCII: a letter becomes upper case when the character before it is not a
      letter and lower case otherwise; every other character is unchanged. */
  function Title(s: string): (r: string)
    ensures |r| == |s|
    ensures forall k :: 0 <= k < |s| ==>
      (IsUpper(r[k]) <==> IsLetter(s[k]) && (k == 0 || !IsLetter(s[k - 1])))
  {
    var r := TitleAfter(s, false);
    forall k | 0 <= k < |s|
      ensures IsUpper(r[k]) <==> IsLetter(s[k]) && (k == 0 || !IsLetter(s[k - 1]))
    {
      if k > 0 && IsLetter(s[k - 1]) {
        assert r[k] == LowerChar(s[k]);
      } else {
        assert r[k] == UpperChar(s[k]);
      }
    }
    r
  }

  /* ---------- decimal numbers ---------- */

  function DigitChar(d: nat): (c: char)
    requires d < 10
    ensures IsDigit(c)
  {
    ('0' as int + d) as char
  }

  function DigitValue(c: char): (d: nat)
    requires IsDigit(c)
    ensures d < 10
  {
    c as int - '0' as int
  }

  /** `f"{n}"` for a natural number. */
  function Decimal(n: nat): (r: string)
    ensures r != []
    ensures forall k :: 0 <= k < |r| ==> IsDigit(r[k])
  {
    if n < 10 then [DigitChar(n)] else Decimal(n / 10) + [DigitChar(n % 10)]
  }

  /** Reads a string of decimal digits. */
  function ParseDecimal(ds: string): nat
    requires forall k :: 0 <= k < |ds| ==> IsDigit(ds[k])
  {
    if ds == [] then 0 else ParseDecimal(ds[..|ds| - 1]) * 10 + DigitValue(ds[|ds| - 1])
  }

  lemma {:induction false} ParseDecimalOfDecimal(n: nat)
    ensures ParseDecimal(Decimal(n)) == n
  {
    var d := Decimal(n);
    if n >= 10 {
      ParseDecimalOfDecimal(n / 10);
      assert d[..|d| - 1] == Decimal(n / 10);
    }
  }

  /* ---------- search ---------- */

  /** `pat` occurs in `s` as a contiguous substring. */
  predicate Occurs(pat: string, s: string)
    decreases |s|
  {
    |pat| <= |s| && (s[..|pat|] == pat || Occurs(pat, s[1..]))
  }
}
