/**
  The name-structure miner inside `service_name`: existing product names are
  normalised by three regular-expression substitutions and a whitespace
  cleanup, their first and last tokens are pooled, and the pools are reduced
  to their most common entries.
 */
module NameMining {
  import opened Outcomes
  import opened Seqs
  import opened Text
  import opened Frequency

  /* ---------- re.sub(r"(AWS.)|(Amazon.)", "", n) ---------- */

  /** Length of a match of `(AWS.)|(Amazon.)` at the start of `s`, or 0; `.` is any character but a newline. */
  function BrandMatchLen(s: string): (m: nat)
    ensures m == 0 || m == 4 || m == 7
    ensures m <= |s|
  {
    if |s| >= 4 && s[0] == 'A' && s[1] == 'W' && s[2] == 'S' && s[3] != '\n' then 4
    else if |s| >= 7 && s[0] == 'A' && s[1] == 'm' && s[2] == 'a' && s[3] == 'z' && s[4] == 'o' && s[5] == 'n'
      && s[6] != '\n' then 7
    else 0
  }

  /** What the match length means: 4 exactly for "AWS" and a character other than a newline,
      7 exactly for "Amazon" and such a character, 0 otherwise. */
  lemma BrandMatchMeaning(s: string)
    ensures BrandMatchLen(s) == 4 <==> |s| >= 4 && s[..3] == "AWS" && s[3] != '\n'
    ensures BrandMatchLen(s) == 7 <==> |s| >= 7 && s[..6] == "Amazon" && s[6] != '\n'
    ensures BrandMatchLen(s) == 0 <==>
      !(|s| >= 4 && s[..3] == "AWS" && s[3] != '\n') && !(|s| >= 7 && s[..6] == "Amazon" && s[6] != '\n')
  {
    if |s| >= 4 && s[..3] == "AWS" {
      assert s[0] == 'A' && s[1] == 'W' && s[2] == 'S' by { assert s[..3][0] == s[0] && s[..3][1] == s[1] && s[..3][2] == s[2]; }
    }
    if |s| >= 7 && s[..6] == "Amazon" {
      assert s[1] == 'm' by { assert s[..6][1] == s[1]; }
      assert s[0] == 'A' && s[2] == 'a' && s[3] == 'z' && s[4] == 'o' && s[5] == 'n' by {
        assert forall k :: 0 <= k < 6 ==> s[..6][k] == s[k];
      }
    }
    if |s| >= 4 && s[0] == 'A' && s[1] == 'W' && s[2] == 'S' {
      assert s[..3] == "AWS";
    }
    if |s| >= 7 && s[0] == 'A' && s[1] == 'm' && s[2] == 'a' && s[3] == 'z' && s[4] == 'o' && s[5] == 'n' {
      assert s[..6] == "Amazon";
    }
  }

  /** Deletes every brand match, scanning left to right without overlaps. */
  function StripBrands(s: string): (r: string)
    ensures |r| <= |s|
    decreases |s|
  {
    if s == [] then []
    else
      var m := BrandMatchLen(s);
      if m > 0 then StripBrands(s[m..]) else [s[0]] + StripBrands(s[1..])
  }

  /** A brand match never has a space inside it, so one cannot run past a space. */
  lemma {:induction false} BrandMatchBeforeSpace(p: string, q: string)
    ensures BrandMatchLen(p + " " + q) == BrandMatchLen(p + " ")
    ensures BrandMatchLen(p + " ") <= |p| + 1
  {
    var s := p + " " + q;
    var t := p + " ";
    assert s[|p|] == ' ' && t[|p|] == ' ';
    assert forall k :: 0 <= k < |t| ==> s[k] == t[k];
  }

  /** A brand match that ends before the space is skipped on both sides of the split. */
  lemma {:induction false} SkipBrandBeforeSpace(p: string, q: string)
    requires 0 < BrandMatchLen(p + " ") <= |p|
    ensures var m := BrandMatchLen(p + " ");
      StripBrands(p + " " + q) == StripBrands(p[m..] + " " + q)
      && StripBrands(p + " ") == StripBrands(p[m..] + " ")
  {
    BrandMatchBeforeSpace(p, q);
    var m := BrandMatchLen(p + " ");
    assert (p + " " + q)[m..] == p[m..] + " " + q;
    assert (p + " ")[m..] == p[m..] + " ";
  }

  /** A brand match that ends with the space removes all of `p` and the space. */
  lemma {:induction false} SkipBrandThroughSpace(p: string, q: string)
    requires BrandMatchLen(p + " ") == |p| + 1
    ensures StripBrands(p + " " + q) == StripBrands(q)
    ensures StripBrands(p + " ") == []
  {
    BrandMatchBeforeSpace(p, q);
    var m := |p| + 1;
    assert (p + " " + q)[m..] == q;
    assert (p + " ")[m..] == [];
  }

  /** Without a match the first character is kept on both sides of the split. */
  lemma {:induction false} KeepCharBeforeSpace(p: string, q: string)
    requires BrandMatchLen(p + " ") == 0
    ensures p != [] ==>
      StripBrands(p + " " + q) == [p[0]] + StripBrands(p[1..] + " " + q)
      && StripBrands(p + " ") == [p[0]] + StripBrands(p[1..] + " ")
    ensures p == [] ==> StripBrands(p + " " + q) == " " + StripBrands(q) && StripBrands(p + " ") == " "
  {
    BrandMatchBeforeSpace(p, q);
    var s := p + " " + q;
    var t := p + " ";
    if p == [] {
      assert s[1..] == q;
      assert t[1..] == [];
    } else {
      assert s[0] == p[0] && t[0] == p[0];
      assert s[1..] == p[1..] + " " + q;
      assert t[1..] == p[1..] + " ";
    }
  }

  /** Removing brands distributes over a split made just after a space. */
  lemma {:induction false} StripBrandsAtSpace(p: string, q: string)
    ensures StripBrands(p + " " + q) == StripBrands(p + " ") + StripBrands(q)
    decreases |p|
  {
    BrandMatchBeforeSpace(p, q);
    var m := BrandMatchLen(p + " ");
    if m == |p| + 1 {
      SkipBrandThroughSpace(p, q);
    } else if m > 0 {
      StripBrandsAtSpace(p[m..], q);
      SkipBrandBeforeSpace(p, q);
    } else if p == [] {
      KeepCharBeforeSpace(p, q);
    } else {
      StripBrandsAtSpace(p[1..], q);
      KeepCharAtSpace(p, q);
    }
  }

  /** The step of `StripBrandsAtSpace` for a kept first character. */
  lemma {:induction false} KeepCharAtSpace(p: string, q: string)
    requires p != [] && BrandMatchLen(p + " ") == 0
    requires StripBrands(p[1..] + " " + q) == StripBrands(p[1..] + " ") + StripBrands(q)
    ensures StripBrands(p + " " + q) == StripBrands(p + " ") + StripBrands(q)
  {
    KeepCharBeforeSpace(p, q);
    ConsAssoc(p[0], StripBrands(p[1..] + " "), StripBrands(q));
  }

  /** A brand on its own, with no character after it, is kept. */
  lemma StripBrandsOfAws()
    ensures StripBrands("AWS") == "AWS"
  {
    var w := "AWS";
    assert BrandMatchLen(w) == 0;
    assert w[1..] == "WS" + [];
    BrandFreePrefixKept("WS", []);
  }

  lemma StripBrandsOfAmazon()
    ensures StripBrands("Amazon") == "Amazon"
  {
    var w := "Amazon";
    assert BrandMatchLen(w) == 0;
    assert w[1..] == "mazon" + [];
    BrandFreePrefixKept("mazon", []);
  }

  /** A brand written as the last word of a name ("... for AWS") is kept: the pattern needs a
      character after the brand. */
  lemma TrailingBrandKept(p: string)
    ensures StripBrands(p + " AWS") == StripBrands(p + " ") + "AWS"
    ensures StripBrands(p + " Amazon") == StripBrands(p + " ") + "Amazon"
  {
    assert p + " AWS" == p + " " + "AWS";
    assert p + " Amazon" == p + " " + "Amazon";
    StripBrandsAtSpace(p, "AWS");
    StripBrandsAtSpace(p, "Amazon");
    StripBrandsOfAws();
    StripBrandsOfAmazon();
  }

  /** A brand is deleted together with the one character after it, whatever that character is
      ("AWS Lambda", "AWSome", "Amazon-S3"), unless it is a newline. */
  lemma LeadingBrandRemoved(c: char, q: string)
    requires c != '\n'
    ensures StripBrands("AWS" + [c] + q) == StripBrands(q)
    ensures StripBrands("Amazon" + [c] + q) == StripBrands(q)
  {
    var s := "AWS" + [c] + q;
    assert s[0] == 'A' && s[1] == 'W' && s[2] == 'S' && s[3] == c;
    assert s[4..] == q;
    var t := "Amazon" + [c] + q;
    assert t[0] == 'A' && t[1] == 'm' && t[2] == 'a' && t[3] == 'z' && t[4] == 'o' && t[5] == 'n' && t[6] == c;
    assert t[7..] == q;
  }

  /** A first character other than 'A' starts no match and is kept. */
  lemma KeepNonA(s: string)
    requires s != [] && s[0] != 'A'
    ensures StripBrands(s) == [s[0]] + StripBrands(s[1..])
  {
    assert BrandMatchLen(s) == 0;
  }

  /** A first character that starts neither "AWS" nor "Amazon" followed by a non-newline
      character, as in "Apple Pay" or "AWS" before a newline, is kept, and the scan resumes at
      the next character. */
  lemma NoMatchKept(s: string)
    requires s != []
    requires !(|s| >= 4 && s[..3] == "AWS" && s[3] != '\n')
    requires !(|s| >= 7 && s[..6] == "Amazon" && s[6] != '\n')
    ensures StripBrands(s) == [s[0]] + StripBrands(s[1..])
  {
    BrandMatchMeaning(s);
  }

  lemma BrandFreeStep(p: string, q: string)
    requires p != [] && p[0] != 'A'
    ensures StripBrands(p + q) == [p[0]] + StripBrands(p[1..] + q)
  {
    ConsOfAppend(p, q);
    KeepNonA(p + q);
  }

  /** Text without an 'A' starts no match, so it is kept as it is in front of whatever follows. */
  lemma {:induction false} BrandFreePrefixKept(p: string, q: string)
    requires forall k :: 0 <= k < |p| ==> p[k] != 'A'
    ensures StripBrands(p + q) == p + StripBrands(q)
    decreases |p|
  {
    if p == [] {
      assert p + q == q;
    } else {
      BrandFreeStep(p, q);
      HeadTail(p, 'A');
      BrandFreePrefixKept(p[1..], q);
      ConsAssoc(p[0], p[1..], StripBrands(q));
    }
  }

  /** A name mentioning neither brand is left unchanged. */
  lemma {:induction false} NoBrandUnchanged(s: string)
    requires !Occurs("AWS", s) && !Occurs("Amazon", s)
    ensures StripBrands(s) == s
    decreases |s|
  {
    if s != [] {
      assert BrandMatchLen(s) == 0;
      assert !Occurs("AWS", s[1..]) && !Occurs("Amazon", s[1..]);
      NoBrandUnchanged(s[1..]);
    }
  }

  /* ---------- re.sub(r" ?\([^)]+\)", "", n) ---------- */

  /** Index of the first ')' at or after `i`, or `|s|` when there is none. */
  function CloseFrom(s: string, i: nat): (j: nat)
    requires i <= |s|
    ensures i <= j <= |s|
    ensures j < |s| ==> s[j] == ')'
    ensures forall k :: i <= k < j ==> s[k] != ')'
    decreases |s| - i
  {
    if i == |s| || s[i] == ')' then i else CloseFrom(s, i + 1)
  }

  /** Length of a match of ` ?\([^)]+\)` at the start of `s`, or 0: an optional space, an opening
      parenthesis, at least one character other than ')', and the first ')' after it. */
  function ParenMatchLen(s: string): (m: nat)
    ensures m <= |s|
    ensures m > 0 ==> s[0] == ' ' || s[0] == '('
  {
    if |s| >= 2 && s[0] == ' ' && s[1] == '(' && 2 < CloseFrom(s, 2) < |s| then CloseFrom(s, 2) + 1
    else if |s| >= 1 && s[0] == '(' && 1 < CloseFrom(s, 1) < |s| then CloseFrom(s, 1) + 1
    else 0
  }

  /** A group `\([^)]+\)` starts at `o`: an opening parenthesis, a first character other than ')'
      and a ')' somewhere after it. */
  ghost predicate GroupAt(s: string, o: nat) {
    o + 2 < |s| && s[o] == '(' && s[o + 1] != ')' && ')' in s[o + 2..]
  }

  /** What the match length means: a match exists exactly when a group starts at the first
      character, or at the second after a space, and it runs to the first ')' after the group's
      first character. */
  lemma ParenMatchMeaning(s: string)
    ensures ParenMatchLen(s) > 0 <==> GroupAt(s, 0) || (|s| > 0 && s[0] == ' ' && GroupAt(s, 1))
    ensures ParenMatchLen(s) > 0 ==>
      var o := if s[0] == ' ' then 1 else 0;
      var m := ParenMatchLen(s);
      && s[o] == '('
      && o + 3 <= m
      && s[m - 1] == ')'
      && forall k :: o < k < m - 1 ==> s[k] != ')'
  {
    if |s| >= 3 && s[0] == '(' {
      CloseIsFirst(s, 1);
    }
    if |s| >= 4 && s[0] == ' ' {
      CloseIsFirst(s, 2);
    }
  }

  /** `CloseFrom` finds a ')' exactly when there is one from `i` on. */
  lemma CloseIsFirst(s: string, i: nat)
    requires i <= |s|
    ensures CloseFrom(s, i) < |s| <==> ')' in s[i..]
  {
    var j := CloseFrom(s, i);
    if j < |s| {
      assert s[i..][j - i] == ')';
    }
    if ')' in s[i..] {
      var k :| 0 <= k < |s| - i && s[i..][k] == ')';
      assert s[i + k] == ')';
    }
  }

  /** No parenthesised group with content is left: after every '(' comes either ')' at once or no ')' at all. */
  ghost predicate NoParenGroup(r: string) {
    forall k :: 0 <= k < |r| && r[k] == '(' ==> (k + 1 < |r| && r[k + 1] == ')') || ')' !in r[k + 1..]
  }

  /** Deletes every parenthesised group, scanning left to right. */
  function StripParens(s: string): (r: string)
    ensures |r| <= |s|
    ensures forall c :: c in r ==> c in s
    ensures s != [] && s[0] == ')' ==> r != [] && r[0] == ')'
    ensures NoParenGroup(r)
    decreases |s|
  {
    if s == [] then []
    else
      var m := ParenMatchLen(s);
      if m > 0 then StripParens(s[m..])
      else
        var rest := StripParens(s[1..]);
        var r := [s[0]] + rest;
        assert NoParenGroup(r) by {
          forall k | 0 <= k < |r| && r[k] == '('
            ensures (k + 1 < |r| && r[k + 1] == ')') || ')' !in r[k + 1..]
          {
            if k == 0 {
              assert r[1..] == rest;
              var j := CloseFrom(s, 1);
              if j == |s| {
                assert ')' !in s[1..];
              } else {
                assert j == 1;
              }
            } else {
              assert r[k + 1..] == rest[k..];
            }
          }
        }
        r
  }

  /** A name without '(' is left unchanged. */
  lemma {:induction false} NoParenUnchanged(s: string)
    requires '(' !in s
    ensures StripParens(s) == s
    decreases |s|
  {
    if s != [] {
      assert ParenMatchLen(s) == 0 by {
        if |s| >= 2 && s[0] == ' ' {
          assert s[1] in s;
        }
      }
      NoParenUnchanged(s[1..]);
    }
  }

  /** A first character that starts no match is kept. */
  lemma KeepNonParen(s: string)
    requires s != [] && s[0] != '('
    requires !(|s| >= 2 && s[0] == ' ' && s[1] == '(')
    ensures StripParens(s) == [s[0]] + StripParens(s[1..])
  {
    assert ParenMatchLen(s) == 0;
  }

  lemma ParenFreeStep(p: string, q: string)
    requires p != [] && forall k :: 0 <= k < |p| ==> p[k] != '('
    requires p[|p| - 1] != ' ' || q == [] || q[0] != '('
    ensures StripParens(p + q) == [p[0]] + StripParens(p[1..] + q)
  {
    NoGroupAtFront(p, q);
    KeepNonParen(p + q);
    ConsOfAppend(p, q);
  }

  lemma NoGroupAtFront(p: string, q: string)
    requires p != [] && forall k :: 0 <= k < |p| ==> p[k] != '('
    requires p[|p| - 1] != ' ' || q == [] || q[0] != '('
    ensures (p + q)[0] != '('
    ensures !(|p + q| >= 2 && (p + q)[0] == ' ' && (p + q)[1] == '(')
  {
    var s := p + q;
    assert s[0] == p[0];
    if |p| >= 2 {
      assert s[1] == p[1];
    } else if |s| >= 2 {
      assert s[1] == q[0];
    }
  }

  /** Text without '(' is kept as it is in front of whatever follows, unless it ends in the space
      of a ` (` that the following text opens. */
  lemma {:induction false} ParenFreePrefixKept(p: string, q: string)
    requires forall k :: 0 <= k < |p| ==> p[k] != '('
    requires p == [] || p[|p| - 1] != ' ' || q == [] || q[0] != '('
    ensures StripParens(p + q) == p + StripParens(q)
    decreases |p|
  {
    if p == [] {
      assert p + q == q;
    } else {
      ParenFreeStep(p, q);
      HeadTail(p, '(');
      ParenFreePrefixKept(p[1..], q);
      ConsAssoc(p[0], p[1..], StripParens(q));
    }
  }

  /** A group, with or without a space in front, is deleted whatever follows it. */
  lemma GroupThenRestRemoved(inner: string, q: string)
    requires inner != [] && forall k :: 0 <= k < |inner| ==> inner[k] != ')'
    ensures StripParens("(" + inner + ")" + q) == StripParens(q)
    ensures StripParens(" (" + inner + ")" + q) == StripParens(q)
  {
    var s := "(" + inner + ")" + q;
    var n := |inner|;
    assert forall k :: 1 <= k < 1 + n ==> s[k] == inner[k - 1];
    assert s[1 + n] == ')';
    assert CloseFrom(s, 1) == 1 + n;
    assert s[2 + n..] == q;
    var t := " (" + inner + ")" + q;
    assert forall k :: 2 <= k < 2 + n ==> t[k] == inner[k - 2];
    assert t[2 + n] == ')';
    assert CloseFrom(t, 2) == 2 + n;
    assert t[3 + n..] == q;
  }

  /** A trailing group such as " (SNS)" is deleted together with its leading space. */
  lemma GroupRemoved(inner: string)
    requires inner != [] && ')' !in inner
    ensures StripParens(" (" + inner + ")") == ""
  {
    var s := " (" + inner + ")";
    assert forall k :: 2 <= k < |s| - 1 ==> s[k] == inner[k - 2];
    assert s[|s| - 1] == ')';
    assert CloseFrom(s, 2) == |s| - 1;
    assert s[|s|..] == [];
  }

  /** A name ending in an annotation, as in "Simple Notification Service (SNS)", loses exactly
      the annotation and the space before it when nothing before it opens a parenthesis. */
  lemma {:induction false} TrailingGroupRemoved(p: string, inner: string)
    requires '(' !in p
    requires inner != [] && ')' !in inner
    ensures StripParens(p + " (" + inner + ")") == p
    decreases |p|
  {
    var s := p + " (" + inner + ")";
    if p == [] {
      assert s == " (" + inner + ")";
      GroupRemoved(inner);
    } else {
      assert s[0] == p[0];
      assert ParenMatchLen(s) == 0 by {
        if |p| >= 2 {
          assert s[1] == p[1];
          assert p[1] in p;
        } else {
          assert s[1] == ' ';
        }
      }
      assert s[1..] == p[1..] + " (" + inner + ")";
      TrailingGroupRemoved(p[1..], inner);
    }
  }

  /* ---------- re.sub(r"([A-Z][^A-Z\s s])", " \1", n) ---------- */

  /** A capital at `i` followed by a character that is not a capital, not whitespace and not 's'. */
  predicate CamelBoundary(s: string, i: nat) {
    i + 1 < |s| && IsUpper(s[i]) && !IsUpper(s[i + 1]) && !IsSpace(s[i + 1]) && s[i + 1] != 's'
  }

  /** The camel-case split: a space before each matched capital, scanning left to right. */
  function SplitCamel(s: string): string
    decreases |s|
  {
    if CamelBoundary(s, 0) then [' ', s[0], s[1]] + SplitCamel(s[2..])
    else if s == [] then []
    else [s[0]] + SplitCamel(s[1..])
  }

  /** Reference rule, position by position: a space goes before every capital that is followed by
      a character other than a capital, whitespace or 's'. */
  function SpaceBeforeBoundaries(s: string): string {
    if s == [] then [] else (if CamelBoundary(s, 0) then " " else "") + [s[0]] + SpaceBeforeBoundaries(s[1..])
  }

  /** The left-to-right scan inserts exactly the spaces of the position-by-position rule: the
      character a match consumes after its capital can never start a match itself. */
  lemma {:induction false} SplitCamelIsSpaceBeforeBoundaries(s: string)
    ensures SplitCamel(s) == SpaceBeforeBoundaries(s)
    decreases |s|
  {
    if CamelBoundary(s, 0) {
      assert !CamelBoundary(s[1..], 0);
      assert s[1..][1..] == s[2..];
      SplitCamelIsSpaceBeforeBoundaries(s[2..]);
    } else if s != [] {
      SplitCamelIsSpaceBeforeBoundaries(s[1..]);
    }
  }

  /** `s` with its whitespace removed. */
  function NonSpace(s: string): (r: string)
    ensures forall k :: 0 <= k < |r| ==> !IsSpace(r[k])
  {
    if s == [] then [] else (if IsSpace(s[0]) then [] else [s[0]]) + NonSpace(s[1..])
  }

  /** The camel-case split only inserts whitespace: deleting whitespace on both sides gives the same text. */
  lemma {:induction false} SplitCamelOnlyAddsSpaces(s: string)
    ensures NonSpace(SplitCamel(s)) == NonSpace(s)
    decreases |s|
  {
    if CamelBoundary(s, 0) {
      var rest := SplitCamel(s[2..]);
      var r := [' ', s[0], s[1]] + rest;
      assert IsSpace(' ') && !IsSpace(s[0]) && !IsSpace(s[1]);
      assert r[1..] == [s[0], s[1]] + rest;
      assert r[1..][1..] == [s[1]] + rest;
      assert r[1..][1..][1..] == rest;
      assert NonSpace(r[1..][1..]) == [s[1]] + NonSpace(rest);
      assert NonSpace(r[1..]) == [s[0]] + NonSpace(r[1..][1..]);
      assert NonSpace(r) == NonSpace(r[1..]);
      assert s[1..][1..] == s[2..];
      assert NonSpace(s) == [s[0], s[1]] + NonSpace(s[2..]);
      SplitCamelOnlyAddsSpaces(s[2..]);
    } else if s != [] {
      assert ([s[0]] + SplitCamel(s[1..]))[1..] == SplitCamel(s[1..]);
      SplitCamelOnlyAddsSpaces(s[1..]);
    }
  }

  /** Text without capitals is kept as it is in front of whatever follows. */
  lemma {:induction false} NoCapitalPrefixKept(p: string, q: string)
    requires forall k :: 0 <= k < |p| ==> !IsUpper(p[k])
    ensures SplitCamel(p + q) == p + SplitCamel(q)
    decreases |p|
  {
    if p == [] {
      assert p + q == q;
    } else {
      ConsOfAppend(p, q);
      assert !CamelBoundary(p + q, 0);
      assert forall k :: 0 <= k < |p[1..]| ==> p[1..][k] == p[k + 1];
      NoCapitalPrefixKept(p[1..], q);
      ConsAssoc(p[0], p[1..], SplitCamel(q));
      assert p == [p[0]] + p[1..];
    }
  }

  /** A capital followed by a lower-case letter other than 's' gets a space in front. */
  lemma SplitAtBoundary(c: char, d: char, q: string)
    requires IsUpper(c) && IsLower(d) && d != 's'
    ensures SplitCamel([c, d] + q) == [' ', c, d] + SplitCamel(q)
  {
    var s := [c, d] + q;
    assert s[0] == c && s[1] == d && s[2..] == q;
  }

  /** A capitalised word: a capital, a lower-case letter other than 's', then no further capital. */
  ghost predicate CapitalisedWord(w: string)
  {
    && |w| >= 2 && IsUpper(w[0]) && IsLower(w[1]) && w[1] != 's'
    && forall k :: 2 <= k < |w| ==> !IsUpper(w[k])
  }

  /** A capitalised word gets one space in front and is otherwise kept, whatever follows it. */
  lemma CamelWordSplit(w: string, q: string)
    requires CapitalisedWord(w)
    ensures SplitCamel(w + q) == [' '] + w + SplitCamel(q)
  {
    var r := w[2..];
    assert forall k :: 0 <= k < |r| ==> !IsUpper(r[k]) by {
      forall k | 0 <= k < |r| ensures !IsUpper(r[k]) { assert r[k] == w[k + 2]; }
    }
    SplitAtBoundary(w[0], w[1], r + q);
    NoCapitalPrefixKept(r, q);
    assert w + q == [w[0], w[1]] + (r + q);
    assert [' ', w[0], w[1]] + (r + SplitCamel(q)) == [' '] + w + SplitCamel(q);
  }

  /** Two capitalised words run together, as in "CloudWatch", are split before each capital:
      " Cloud Watch". */
  lemma CamelWordsSplit(first: string, second: string)
    requires CapitalisedWord(first) && CapitalisedWord(second)
    ensures SplitCamel(first + second) == [' '] + first + [' '] + second
  {
    CamelWordSplit(second, []);
    assert second + [] == second;
    CamelWordSplit(first, second);
    assert SplitCamel([]) == [];
    assert [' '] + first + ([' '] + second + []) == [' '] + first + [' '] + second;
  }

  lemma UpperRunUnsplit()
    ensures SplitCamel("EKS") == "EKS"
    ensures SplitCamel("SDKs") == "SDKs"
  {
    assert SplitCamel("S") == "S" by { assert "S"[1..] == []; }
    assert SplitCamel("KS") == "KS" by { assert "KS"[1..] == "S"; }
    assert SplitCamel("EKS") == "EKS" by { assert "EKS"[1..] == "KS"; }
    assert SplitCamel("s") == "s" by { assert "s"[1..] == []; }
    assert SplitCamel("Ks") == "Ks" by { assert "Ks"[1..] == "s"; }
    assert SplitCamel("DKs") == "DKs" by { assert "DKs"[1..] == "Ks"; }
    assert SplitCamel("SDKs") == "SDKs" by { assert "SDKs"[1..] == "DKs"; }
  }

  /* ---------- word counting ---------- */

  /** Number of token starts in `s`: non-space characters preceded by whitespace or, when
      `afterSpace` holds, by the start of the string. */
  function WordStarts(s: string, afterSpace: bool): nat {
    if s == [] then 0
    else (if afterSpace && !IsSpace(s[0]) then 1 else 0) + WordStarts(s[1..], IsSpace(s[0]))
  }

  lemma {:induction false} WordStartsSkipWord(s: string, k: nat)
    requires k <= |s|
    requires forall j :: 0 <= j < k ==> !IsSpace(s[j])
    ensures WordStarts(s, false) == WordStarts(s[k..], false)
  {
    if k > 0 {
      assert s[1..][k - 1..] == s[k..];
      WordStartsSkipWord(s[1..], k - 1);
    }
  }

  lemma {:induction false} SplitCountIsWordStarts(s: string)
    ensures |Split(s)| == WordStarts(s, true)
    decreases |s|
  {
    if s != [] {
      if IsSpace(s[0]) {
        SplitCountIsWordStarts(s[1..]);
      } else {
        var n := WordLen(s);
        SplitCountIsWordStarts(s[n..]);
        assert s[1..][n - 1..] == s[n..];
        WordStartsSkipWord(s[1..], n - 1);
        if n < |s| {
          assert WordStarts(s[n..], false) == WordStarts(s[n..], true);
        }
      }
    }
  }

  lemma {:induction false} SplitCamelKeepsWordStarts(s: string, afterSpace: bool)
    ensures WordStarts(SplitCamel(s), afterSpace) >= WordStarts(s, afterSpace)
    decreases |s|
  {
    if CamelBoundary(s, 0) {
      var rest := SplitCamel(s[2..]);
      var r := [' ', s[0], s[1]] + rest;
      assert IsSpace(' ') && !IsSpace(s[0]) && !IsSpace(s[1]);
      assert r[1..] == [s[0], s[1]] + rest;
      assert r[1..][1..] == [s[1]] + rest;
      assert r[1..][1..][1..] == rest;
      assert WordStarts(r[1..][1..], false) == WordStarts(rest, false);
      assert WordStarts(r[1..], true) == 1 + WordStarts(r[1..][1..], false);
      assert WordStarts(r, afterSpace) == WordStarts(r[1..], true);
      assert s[1..][1..] == s[2..];
      assert WordStarts(s, afterSpace) == (if afterSpace then 1 else 0) + WordStarts(s[2..], false);
      SplitCamelKeepsWordStarts(s[2..], false);
    } else if s != [] {
      assert ([s[0]] + SplitCamel(s[1..]))[1..] == SplitCamel(s[1..]);
      SplitCamelKeepsWordStarts(s[1..], IsSpace(s[0]));
    }
  }

  /** The camel-case split never merges tokens: a name with two tokens or more still has them after it. */
  lemma SplitCamelKeepsMultiToken(s: string)
    ensures |Split(SplitCamel(s))| >= |Split(s)|
  {
    SplitCountIsWordStarts(s);
    SplitCountIsWordStarts(SplitCamel(s));
    SplitCamelKeepsWordStarts(s, true);
  }

  /* ---------- pools ---------- */

  /** A name after the brand and parenthesis deletions: the `names_list_presplit` entry before cleanup. */
  function Prepared(name: string): string {
    StripParens(StripBrands(name))
  }

  /** A name with two tokens or more. */
  predicate MultiToken(raw: string) {
    |Split(raw)| >= 2
  }

  /** The first token of a name after cleanup, when the cleaned name contains whitespace.
      Cleanup never changes the tokens, and the whitespace test is the two-token test. */
  function FirstToken(raw: string): (r: seq<string>)
    ensures r == [] <==> !MultiToken(raw)
    ensures r == if MultiToken(raw) then [Split(raw)[0]] else []
  {
    var c := Clean(raw);
    CleanShape(raw);
    if HasSpace(c) then [Split(c)[0]] else []
  }

  /** The last token of a name after cleanup, when the cleaned name contains whitespace. */
  function LastToken(raw: string): (r: seq<string>)
    ensures r == [] <==> !MultiToken(raw)
    ensures r == if MultiToken(raw) then [Split(raw)[|Split(raw)| - 1]] else []
  {
    var c := Clean(raw);
    CleanShape(raw);
    if HasSpace(c) then [Split(c)[|Split(c)| - 1]] else []
  }

  /** No name in the list has two tokens. */
  predicate NoneMultiToken(raws: seq<string>) {
    forall i :: 0 <= i < |raws| ==> !MultiToken(raws[i])
  }

  lemma NoneMultiTokenStep(raws: seq<string>)
    requires raws != []
    ensures NoneMultiToken(raws) <==> !MultiToken(raws[0]) && NoneMultiToken(raws[1..])
  {
    assert forall i :: 1 <= i < |raws| ==> raws[i] == raws[1..][i - 1];
  }

  function FirstTokens(raws: seq<string>): (r: seq<string>)
    ensures r == [] <==> NoneMultiToken(raws)
  {
    if raws == [] then []
    else
      NoneMultiTokenStep(raws);
      FirstToken(raws[0]) + FirstTokens(raws[1..])
  }

  function LastTokens(raws: seq<string>): (r: seq<string>)
    ensures r == [] <==> NoneMultiToken(raws)
  {
    if raws == [] then []
    else
      NoneMultiTokenStep(raws);
      LastToken(raws[0]) + LastTokens(raws[1..])
  }

  /** The camel-split names, before cleanup. */
  function SplitNames(names: seq<string>): (r: seq<string>)
    ensures |r| == |names|
    ensures forall i :: 0 <= i < |names| ==> r[i] == SplitCamel(Prepared(names[i]))
  {
    seq(|names|, i requires 0 <= i < |names| => SplitCamel(Prepared(names[i])))
  }

  /** The unsplit ("presplit") names, before cleanup. */
  function PresplitNames(names: seq<string>): (r: seq<string>)
    ensures |r| == |names|
    ensures forall i :: 0 <= i < |names| ==> r[i] == Prepared(names[i])
  {
    seq(|names|, i requires 0 <= i < |names| => Prepared(names[i]))
  }

  /** First tokens of the multi-token split names, then of the multi-token presplit names. */
  function PrefixPool(names: seq<string>): seq<string> {
    FirstTokens(SplitNames(names)) + FirstTokens(PresplitNames(names))
  }

  /** Last tokens of the multi-token split names only. */
  function SuffixPool(names: seq<string>): seq<string> {
    LastTokens(SplitNames(names))
  }

  /** The two pools are empty together, because a presplit name with two tokens still has two
      tokens once camel-split. */
  lemma PoolsEmptyTogether(names: seq<string>)
    ensures PrefixPool(names) == [] <==> SuffixPool(names) == []
  {
    forall i | 0 <= i < |names|
      ensures MultiToken(PresplitNames(names)[i]) ==> MultiToken(SplitNames(names)[i])
    {
      SplitCamelKeepsMultiToken(Prepared(names[i]));
    }
  }

  /* ---------- statistics ---------- */

  /** How many most-common entries are kept. */
  const TopPrefixes: nat := 14
  const TopSuffixes: nat := 13

  datatype NameStats = NameStats(topPrefixes: seq<string>, topSuffixes: seq<string>)

  /** `zip(*fdist.most_common(k))` unpacks into two names only when the list is non-empty. */
  datatype MiningError = EmptyPrefixPool | EmptySuffixPool

  /** The mining step of `service_name`. It fails exactly when no name has two tokens or more,
      and then always at the prefixes; otherwise the top lists are non-empty and are the 14 most
      common prefixes and the 13 most common suffixes (all of them when there are fewer). */
  function MineNames(names: seq<string>): (r: Result<NameStats, MiningError>)
    ensures r.Failure? <==> forall i :: 0 <= i < |names| ==> !MultiToken(SplitNames(names)[i])
    ensures r.Failure? ==> r.error == EmptyPrefixPool
    ensures r.Success? ==>
      && |r.value.topPrefixes| >= 1
      && |r.value.topSuffixes| >= 1
      && MostCommonOf(r.value.topPrefixes, PrefixPool(names), TopPrefixes)
      && MostCommonOf(r.value.topSuffixes, SuffixPool(names), TopSuffixes)
  {
    var prefixes := PrefixPool(names);
    var suffixes := SuffixPool(names);
    PoolsEmptyTogether(names);
    if prefixes == [] then Failure(EmptyPrefixPool)
    else if suffixes == [] then Failure(EmptySuffixPool)
    else Success(NameStats(MostCommon(prefixes, TopPrefixes), MostCommon(suffixes, TopSuffixes)))
  }
}
