/**
  The slot assembly of `service_name`: a brand, an optional mined prefix, a
  "middle name" built from one or two corpus words, an optional mined suffix,
  an optional acronym in parentheses and an optional "for <proper noun>"
  purpose, cleaned and joined into the product name; and the abbreviation
  "<brand> <acronym> <purpose>" when there is an acronym.

  Every `random.choice` is an index taken modulo the list length, every
  weighted `random.choices` is a draw of one alternative; both arrive in a
  `NameDraws` record.
 */
module NameComposer {
  import opened Outcomes
  import opened Seqs
  import opened Text
  import opened TagIndex
  import opened Acronym
  import opened NameMining

  /* ---------- vocabulary ---------- */

  /** The words of `ws` that `keep` accepts, in order (a list comprehension with a condition). */
  function Filter(ws: seq<string>, keep: string -> bool): (r: seq<string>)
    ensures |r| <= |ws|
    ensures forall w :: w in r <==> w in ws && keep(w)
  {
    if ws == [] then [] else (if keep(ws[0]) then [ws[0]] else []) + Filter(ws[1..], keep)
  }

  /** Longer than two characters. */
  predicate LongEnough(w: string) {
    |w| > 2
  }

  predicate NounChar(c: char) {
    IsLetter(c) || IsDigit(c) || c == '-'
  }

  predicate AllNounChars(w: string) {
    w != [] && forall k :: 0 <= k < |w| ==> NounChar(w[k])
  }

  /** `re.search(r"^[a-zA-Z0-9-]+$", w)`: `$` also matches just before a final newline. */
  predicate PlainNoun(w: string) {
    AllNounChars(w) || (|w| >= 2 && w[|w| - 1] == '\n' && AllNounChars(w[..|w| - 1]))
  }

  predicate KeptNoun(w: string) {
    LongEnough(w) && PlainNoun(w)
  }

  /** The common nouns a middle name may use: NN words longer than two characters made of
      letters, digits and dashes. */
  function Nouns(index: Index): (r: seq<string>)
    ensures forall w :: w in r <==> w in WordsOf(index, "NN") && |w| > 2 && PlainNoun(w)
  {
    Filter(WordsOf(index, "NN"), KeptNoun)
  }

  /** The proper nouns a purpose may use: NNP words longer than two characters. */
  function ProperNouns(index: Index): (r: seq<string>)
    ensures forall w :: w in r <==> w in WordsOf(index, "NNP") && |w| > 2
  {
    Filter(WordsOf(index, "NNP"), LongEnough)
  }

  /** The base-form verbs a middle name may use: VB words longer than two characters. */
  function Verbs(index: Index): (r: seq<string>)
    ensures forall w :: w in r <==> w in WordsOf(index, "VB") && |w| > 2
  {
    Filter(WordsOf(index, "VB"), LongEnough)
  }

  /** The vocabulary filter keeps a noun with a trailing newline, since `$` matches before it. */
  lemma NounWithTrailingNewlineKept()
    ensures KeptNoun("lake\n")
  {
    assert "lake\n"[..4] == "lake";
  }

  /* ---------- draws ---------- */

  /** `random.choice(xs)` with the pick `i`. */
  function Pick(xs: seq<string>, i: nat): (w: string)
    requires |xs| > 0
    ensures w in xs
  {
    xs[i % |xs|]
  }

  datatype Brand = Aws | Amazon

  function BrandName(b: Brand): string {
    match b
    case Aws => "AWS"
    case Amazon => "Amazon"
  }

  /** Either brand is a single token. */
  lemma BrandIsWord(brand: string)
    requires brand == "AWS" || brand == "Amazon"
    ensures IsWord(brand) && Split(brand) == [brand] && Strip(brand) == brand
  {
    assert IsWord(brand);
    SplitOfWord(brand);
    StripOfWord(brand);
  }

  /** Which of the three middle-name alternatives was drawn: nothing, a noun or a verb. */
  datatype MiddlePick = NoWord | NounWord | VerbWord

  /** How the two middle words are put together. */
  datatype JoinStyle = Fused | Camel | Spaced

  /** One outcome of every random draw in `service_name`, in source order. */
  datatype NameDraws = NameDraws(
    brand: Brand,
    prefixPick: nat, withPrefix: bool,
    nounA: nat, verbA: nat, slotA: MiddlePick,
    nounB: nat, verbB: nat, slotB: MiddlePick,
    style: JoinStyle,
    suffixPick: nat, withSuffix: bool,
    withAcronym: bool,
    properPick: nat, withPurpose: bool)

  /* ---------- slots ---------- */

  function MiddleWord(slot: MiddlePick, noun: string, verb: string): string {
    match slot
    case NoWord => ""
    case NounWord => noun
    case VerbWord => verb
  }

  /** The middle name: "Thisthat", "ThisThat" or "This That". */
  function MiddleName(a: string, b: string, style: JoinStyle): string {
    match style
    case Fused => Capitalize(a + b)
    case Camel => Capitalize(a) + Capitalize(b)
    case Spaced => Capitalize(a) + " " + Capitalize(b)
  }

  /** Each character of `s` as a one-character string: iterating over a string. */
  function Chars(s: string): (r: seq<string>)
    ensures |r| == |s|
    ensures forall k :: 0 <= k < |s| ==> r[k] == [s[k]]
  {
    if s == [] then [] else [[s[0]]] + Chars(s[1..])
  }

  /** The string the acronym is derived from: the title-cased prefix and middle words and the
      suffix as is, with a space between every two characters. */
  function AcronymSource(prefix: string, a: string, b: string, suffix: string): string {
    Join(Chars(Title(prefix) + Title(a + " " + b) + suffix))
  }

  /** The values of the six name slots, after every draw. */
  datatype Slots = Slots(
    brand: string, prefix: string, wordA: string, wordB: string, style: JoinStyle,
    suffix: string, acronym: string, purpose: string)

  /** What the candidate lists allow each slot to hold. */
  ghost predicate SlotsDrawn(s: Slots, stats: NameStats, nouns: seq<string>, verbs: seq<string>, proper: seq<string>) {
    && (s.brand == "AWS" || s.brand == "Amazon")
    && (s.prefix == "" || s.prefix in stats.topPrefixes)
    && (s.wordA == "" || s.wordA in nouns || s.wordA in verbs)
    && (s.wordB == "" || s.wordB in nouns || s.wordB in verbs)
    && (s.suffix == "" || s.suffix in stats.topSuffixes)
    && (s.acronym == "" || s.acronym == ServiceAcronym(AcronymSource(s.prefix, s.wordA, s.wordB, s.suffix)))
    && (s.purpose == "" || (|s.purpose| >= 4 && s.purpose[..4] == "for " && s.purpose[4..] in proper))
  }

  /** "for " followed by a word can be read back. */
  lemma ForPurpose(w: string)
    ensures var p := "for " + w; |p| >= 4 && p[..4] == "for " && p[4..] == w
  {
  }

  /** The draws of `service_name` applied to non-empty candidate lists. */
  function ComposeSlots(stats: NameStats, nouns: seq<string>, verbs: seq<string>, proper: seq<string>, d: NameDraws): (s: Slots)
    requires |stats.topPrefixes| > 0 && |stats.topSuffixes| > 0
    requires |nouns| > 0 && |verbs| > 0 && |proper| > 0
    ensures SlotsDrawn(s, stats, nouns, verbs, proper)
    ensures s.style == d.style
  {
    var prefix := if d.withPrefix then Pick(stats.topPrefixes, d.prefixPick) else "";
    var a := MiddleWord(d.slotA, Pick(nouns, d.nounA), Pick(verbs, d.verbA));
    var b := MiddleWord(d.slotB, Pick(nouns, d.nounB), Pick(verbs, d.verbB));
    var suffix := if d.withSuffix then Pick(stats.topSuffixes, d.suffixPick) else "";
    var acronym := if d.withAcronym then ServiceAcronym(AcronymSource(prefix, a, b, suffix)) else "";
    var purpose := if d.withPurpose then "for " + Pick(proper, d.properPick) else "";
    ForPurpose(Pick(proper, d.properPick));
    assert a == "" || a in nouns || a in verbs;
    assert b == "" || b in nouns || b in verbs;
    Slots(BrandName(d.brand), prefix, a, b, d.style, suffix, acronym, purpose)
  }

  function BrandOf(name: string): Brand {
    if name == "AWS" then Aws else Amazon
  }

  function MiddlePickOf(w: string, nouns: seq<string>): MiddlePick {
    if w == "" then NoWord else if w in nouns then NounWord else VerbWord
  }

  function PickOf(xs: seq<string>, w: string): nat {
    if w in xs then IndexOf(xs, w) else 0
  }

  /** Draws that produce the given slots. */
  function DrawsFor(s: Slots, stats: NameStats, nouns: seq<string>, verbs: seq<string>, proper: seq<string>): NameDraws {
    NameDraws(
      BrandOf(s.brand),
      PickOf(stats.topPrefixes, s.prefix), s.prefix != "",
      PickOf(nouns, s.wordA), PickOf(verbs, s.wordA), MiddlePickOf(s.wordA, nouns),
      PickOf(nouns, s.wordB), PickOf(verbs, s.wordB), MiddlePickOf(s.wordB, nouns),
      s.style,
      PickOf(stats.topSuffixes, s.suffix), s.suffix != "",
      s.acronym != "",
      PickOf(proper, if |s.purpose| >= 4 then s.purpose[4..] else ""), s.purpose != "")
  }

  lemma ModOfSmaller(i: nat, n: nat)
    requires i < n
    ensures i % n == i
  {
  }

  lemma PickOfPicks(xs: seq<string>, w: string)
    requires w in xs
    ensures Pick(xs, PickOf(xs, w)) == w
  {
    var i := IndexOf(xs, w);
    assert PickOf(xs, w) == i;
    ModOfSmaller(i, |xs|);
    assert Pick(xs, i) == xs[i];
  }

  /** The draws reach every slot assignment the candidate lists allow: `SlotsDrawn` is exactly
      the set of outcomes, not an over-approximation. */
  lemma EverySlotsReachable(s: Slots, stats: NameStats, nouns: seq<string>, verbs: seq<string>, proper: seq<string>)
    requires |stats.topPrefixes| > 0 && |stats.topSuffixes| > 0
    requires |nouns| > 0 && |verbs| > 0 && |proper| > 0
    requires SlotsDrawn(s, stats, nouns, verbs, proper)
    ensures ComposeSlots(stats, nouns, verbs, proper, DrawsFor(s, stats, nouns, verbs, proper)) == s
  {
    var d := DrawsFor(s, stats, nouns, verbs, proper);
    var r := ComposeSlots(stats, nouns, verbs, proper, d);
    if s.prefix != "" { PickOfPicks(stats.topPrefixes, s.prefix); }
    if s.suffix != "" { PickOfPicks(stats.topSuffixes, s.suffix); }
    if s.wordA in nouns { PickOfPicks(nouns, s.wordA); } else if s.wordA != "" { PickOfPicks(verbs, s.wordA); }
    if s.wordB in nouns { PickOfPicks(nouns, s.wordB); } else if s.wordB != "" { PickOfPicks(verbs, s.wordB); }
    assert r.wordA == s.wordA && r.wordB == s.wordB;
    assert r.prefix == s.prefix && r.suffix == s.suffix;
    if s.purpose != "" {
      PickOfPicks(proper, s.purpose[4..]);
      assert s.purpose == "for " + s.purpose[4..];
    }
    assert r.purpose == s.purpose;
  }

  /* ---------- the two strings ---------- */

  /** The slot list before cleanup: the parenthesised acronym only when there is one. */
  function NameParts(s: Slots): seq<string> {
    [s.brand, s.prefix, MiddleName(s.wordA, s.wordB, s.style), s.suffix]
    + (if s.acronym != "" then ["(" + s.acronym + ")"] else [])
    + [s.purpose]
  }

  /** `[n.strip() for n in parts if len(n) > 0]`: the length test comes before stripping. */
  function CleanParts(parts: seq<string>): (r: seq<string>)
    ensures |r| <= |parts|
  {
    if parts == [] then [] else (if |parts[0]| > 0 then [Strip(parts[0])] else []) + CleanParts(parts[1..])
  }

  function NameString(s: Slots): string {
    Join(CleanParts(NameParts(s)))
  }

  function AbbrevParts(s: Slots): seq<string> {
    if s.acronym != "" then [s.brand, s.acronym, s.purpose] else []
  }

  function AbbrevString(s: Slots): string {
    Join(CleanParts(AbbrevParts(s)))
  }

  /** Cleaning the parts never changes their tokens. */
  lemma {:induction false} CleanPartsKeepsTokens(parts: seq<string>)
    ensures SplitEach(CleanParts(parts)) == SplitEach(parts)
  {
    if parts != [] {
      CleanPartsKeepsTokens(parts[1..]);
      var p := parts[0];
      StripKeepsTokens(p);
      if |p| == 0 {
        assert Split(p) == [];
        assert CleanParts(parts) == CleanParts(parts[1..]);
      } else {
        assert CleanParts(parts) == [Strip(p)] + CleanParts(parts[1..]);
      }
    }
  }

  lemma {:induction false} SplitEachAppend(a: seq<string>, b: seq<string>)
    ensures SplitEach(a + b) == SplitEach(a) + SplitEach(b)
  {
    if a == [] {
      assert a + b == b;
    } else {
      assert (a + b)[0] == a[0];
      assert (a + b)[1..] == a[1..] + b;
      SplitEachAppend(a[1..], b);
    }
  }

  lemma SplitEachCons(z: string, rest: seq<string>)
    ensures SplitEach([z] + rest) == Split(z) + SplitEach(rest)
  {
    assert ([z] + rest)[0] == z && ([z] + rest)[1..] == rest;
  }

  lemma SplitEachOfOne(z: string)
    ensures SplitEach([z]) == Split(z)
  {
    SplitEachCons(z, []);
    assert [z] + [] == [z];
  }

  lemma SplitEachOfTwo(y: string, z: string)
    ensures SplitEach([y, z]) == Split(y) + Split(z)
  {
    SplitEachCons(y, [z]);
    SplitEachOfOne(z);
    assert [y] + [z] == [y, z];
  }

  lemma SplitEachOfThree(x: string, y: string, z: string)
    ensures SplitEach([x, y, z]) == Split(x) + Split(y) + Split(z)
  {
    SplitEachCons(x, [y, z]);
    SplitEachOfTwo(y, z);
    AppendAssoc(Split(x), Split(y), Split(z));
    assert [x] + [y, z] == [x, y, z];
  }

  /** Cleaning and joining the parts keeps exactly their tokens, in order. */
  lemma CleanJoinTokens(parts: seq<string>)
    ensures Split(Join(CleanParts(parts))) == SplitEach(parts)
  {
    SplitJoin(CleanParts(parts));
    CleanPartsKeepsTokens(parts);
  }

  /** The tokens of a name are the tokens of its slots in the fixed order brand, prefix, middle
      name, suffix, parenthesised acronym (when there is one), purpose: cleanup drops and
      strips parts but never moves, merges or splits a token. */
  lemma NameTokens(s: Slots)
    ensures Split(NameString(s)) == SplitEach(NameParts(s))
  {
    CleanJoinTokens(NameParts(s));
  }

  /** Joining parts whose first part is a word starts with that word, followed by a space
      when more parts follow. */
  lemma JoinStartsWith(parts: seq<string>)
    requires |parts| > 0
    ensures |Join(parts)| >= |parts[0]| && Join(parts)[..|parts[0]|] == parts[0]
    ensures |parts| > 1 ==> |Join(parts)| > |parts[0]| && Join(parts)[|parts[0]|] == ' '
  {
  }

  /** A name starts with its brand, followed by a space unless the brand is all of it; the
      brand is the name's first token. */
  lemma NameStartsWithBrand(s: Slots)
    requires s.brand == "AWS" || s.brand == "Amazon"
    ensures var n := NameString(s); |n| >= |s.brand| && n[..|s.brand|] == s.brand
    ensures var n := NameString(s); n == s.brand || n[|s.brand|] == ' '
    ensures |Split(NameString(s))| > 0 && Split(NameString(s))[0] == s.brand
  {
    var parts := CleanParts(NameParts(s));
    BrandIsWord(s.brand);
    assert parts[0] == s.brand;
    JoinStartsWith(parts);
    NameTokens(s);
    assert SplitEach(NameParts(s)) == Split(s.brand) + SplitEach(NameParts(s)[1..]);
  }

  /** The abbreviation is empty exactly when the acronym is. */
  lemma AbbrevEmptyIff(s: Slots)
    requires s.brand == "AWS" || s.brand == "Amazon"
    ensures AbbrevString(s) == "" <==> s.acronym == ""
  {
    if s.acronym != "" {
      var parts := CleanParts(AbbrevParts(s));
      BrandIsWord(s.brand);
      assert parts[0] == s.brand;
      JoinStartsWith(parts);
    }
  }

  /** With an acronym, the abbreviation's tokens are the brand, the acronym and the purpose's tokens. */
  lemma AbbrevTokens(s: Slots)
    requires s.brand == "AWS" || s.brand == "Amazon"
    requires s.acronym != ""
    requires forall k :: 0 <= k < |s.acronym| ==> !IsSpace(s.acronym[k])
    ensures Split(AbbrevString(s)) == [s.brand, s.acronym] + Split(s.purpose)
  {
    var parts := [s.brand, s.acronym, s.purpose];
    assert AbbrevParts(s) == parts;
    CleanJoinTokens(parts);
    SplitEachOfThree(s.brand, s.acronym, s.purpose);
    BrandIsWord(s.brand);
    SplitOfWord(s.acronym);
  }

  /** One step of the cleanup. */
  lemma {:induction false} CleanPartsCons(p: string, rest: seq<string>)
    ensures CleanParts([p] + rest) == (if |p| > 0 then [Strip(p)] else []) + CleanParts(rest)
  {
    assert ([p] + rest)[1..] == rest;
  }

  lemma {:induction false} CleanPartsOfSpaceWord(suffix: string)
    requires IsWord(suffix)
    ensures CleanParts([" ", suffix, ""]) == ["", suffix]
  {
    var e: seq<string> := [];
    var q2: seq<string> := [""] + e;
    CleanPartsCons("", e);
    assert CleanParts(q2) == [];
    var q1 := [suffix] + q2;
    StripOfWord(suffix);
    CleanPartsCons(suffix, q2);
    assert CleanParts(q1) == [suffix];
    var q0 := [" "] + q1;
    StripOfSpaces(" ");
    CleanPartsCons(" ", q1);
    assert CleanParts(q0) == ["", suffix];
    assert q0 == [" ", suffix, ""];
  }

  /** The slot list of a name with no prefix, an empty spaced middle name, a suffix and no
      acronym or purpose: the one-space middle name passes the length test and becomes "". */
  lemma {:induction false} CleanPartsOfSpacedMiddle(brand: string, suffix: string)
    requires IsWord(brand) && IsWord(suffix)
    ensures CleanParts([brand, "", " ", suffix, ""]) == [brand, "", suffix]
  {
    var q0 := [" ", suffix, ""];
    var q1 := [""] + q0;
    var q2 := [brand] + q1;
    assert q2 == [brand, "", " ", suffix, ""];
    CleanPartsOfSpaceWord(suffix);
    CleanPartsCons("", q0);
    StripOfWord(brand);
    CleanPartsCons(brand, q1);
  }

  /** Two empty middle words in the spaced style make the middle name " ", which passes the
      length test, strips to "" and leaves a doubled space: "AWS  Lake". */
  lemma {:induction false} EmptySpacedMiddleLeavesDoubleSpace(brand: string, suffix: string)
    requires brand == "AWS" || brand == "Amazon"
    requires IsWord(suffix)
    ensures NameString(Slots(brand, "", "", "", Spaced, suffix, "", "")) == brand + "  " + suffix
  {
    var s := Slots(brand, "", "", "", Spaced, suffix, "", "");
    assert MiddleName("", "", Spaced) == " ";
    assert NameParts(s) == [brand, "", " ", suffix, ""];
    BrandIsWord(brand);
    CleanPartsOfSpacedMiddle(brand, suffix);
    var parts := [brand, "", suffix];
    assert parts[1..] == ["", suffix];
    assert ["", suffix][1..] == [suffix];
    assert Join(["", suffix]) == " " + suffix;
    assert Join(parts) == brand + " " + (" " + suffix);
  }

  lemma {:induction false} CleanPartsOfSpaceAlone()
    ensures CleanParts([" ", "", ""]) == [""]
  {
    var e: seq<string> := [];
    var q2: seq<string> := [""] + e;
    CleanPartsCons("", e);
    assert CleanParts(q2) == [];
    var q1 := [""] + q2;
    CleanPartsCons("", q2);
    assert CleanParts(q1) == [];
    var q0 := [" "] + q1;
    StripOfSpaces(" ");
    CleanPartsCons(" ", q1);
    assert CleanParts(q0) == [""];
    assert q0 == [" ", "", ""];
  }

  lemma {:induction false} CleanPartsOfSpacedMiddleAlone(brand: string)
    requires IsWord(brand)
    ensures CleanParts([brand, "", " ", "", ""]) == [brand, ""]
  {
    var q0 := [" ", "", ""];
    var q1 := [""] + q0;
    var q2 := [brand] + q1;
    assert q2 == [brand, "", " ", "", ""];
    CleanPartsOfSpaceAlone();
    CleanPartsCons("", q0);
    StripOfWord(brand);
    CleanPartsCons(brand, q1);
  }

  /** With nothing after it, the one-space middle name still passes the length test and strips
      to "", so the name ends in a single space: "AWS ". */
  lemma {:induction false} EmptySpacedMiddleAloneLeavesTrailingSpace(brand: string)
    requires brand == "AWS" || brand == "Amazon"
    ensures NameString(Slots(brand, "", "", "", Spaced, "", "", "")) == brand + " "
  {
    var s := Slots(brand, "", "", "", Spaced, "", "", "");
    assert MiddleName("", "", Spaced) == " ";
    assert NameParts(s) == [brand, "", " ", "", ""];
    BrandIsWord(brand);
    CleanPartsOfSpacedMiddleAlone(brand);
    var parts := [brand, ""];
    assert parts[1..] == [""];
    assert Join(parts) == brand + " " + "";
  }

  /* ---------- the acronym source ---------- */

  /** Spacing out the characters adds no capitals. */
  lemma {:induction false} CapitalsOfSpacedChars(s: string)
    ensures Capitals(Join(Chars(s))) == Capitals(s)
  {
    if |s| > 1 {
      CapitalsOfSpacedChars(s[1..]);
      assert Chars(s)[1..] == Chars(s[1..]);
      assert Join(Chars(s)) == [s[0]] + " " + Join(Chars(s[1..]));
      CapitalsAppend([s[0]] + " ", Join(Chars(s[1..])));
      CapitalsAppend([s[0]], " ");
      CapitalsAppend([s[0]], s[1..]);
      assert [s[0]] + s[1..] == s;
    }
  }

  /** The acronym counts the capitals of the title-cased prefix, of the title-cased middle words
      and of the suffix as written. */
  lemma AcronymSourceCapitals(prefix: string, a: string, b: string, suffix: string)
    ensures Capitals(AcronymSource(prefix, a, b, suffix)) ==
      Capitals(Title(prefix)) + Capitals(Title(a + " " + b)) + Capitals(suffix)
  {
    var t := Title(prefix) + Title(a + " " + b) + suffix;
    CapitalsOfSpacedChars(t);
    CapitalsAppend(Title(prefix) + Title(a + " " + b), suffix);
    CapitalsAppend(Title(prefix), Title(a + " " + b));
  }

  predicate AllLetters(w: string) {
    forall k :: 0 <= k < |w| ==> IsLetter(w[k])
  }

  /** Title-casing a word of letters keeps only its first letter as a capital, so a capital
      inside a word (as in "IoT") does not count towards the acronym. */
  lemma TitleWordCapitals(w: string)
    requires w != [] && AllLetters(w)
    ensures Capitals(Title(w)) == [UpperChar(w[0])]
  {
    var t := Title(w);
    assert t == TitleAfter(w, false);
    assert t[0] == UpperChar(w[0]);
    forall k | 1 <= k < |t|
      ensures !IsUpper(t[k])
    {
      assert IsLetter(w[k - 1]);
    }
    assert t == [t[0]] + t[1..];
    CapitalsOfWord(t[0], t[1..]);
  }

  /** Two words of letters give one capital each, also when the middle name fuses them
      (the middle words "test" and "case" give "TC"). */
  lemma TitleTwoWordsCapitals(a: string, b: string)
    requires a != [] && AllLetters(a)
    requires b != [] && AllLetters(b)
    ensures Capitals(Title(a + " " + b)) == [UpperChar(a[0]), UpperChar(b[0])]
  {
    var s := a + " " + b;
    var t := Title(s);
    assert s[0] == a[0] && s[|a| + 1] == b[0] && s[|a|] == ' ';
    var t0 := t[..1];
    var t1 := t[1..|a| + 1];
    var t2 := t[|a| + 1..|a| + 2];
    var t3 := t[|a| + 2..];
    assert t == t0 + t1 + t2 + t3;
    assert t0 == [t[0]] && t2 == [t[|a| + 1]];
    assert IsUpper(t[0]) && IsUpper(t[|a| + 1]);
    forall k | 0 <= k < |t1|
      ensures !IsUpper(t1[k])
    {
      assert t1[k] == t[k + 1];
      assert s[k] == a[k];
    }
    forall k | 0 <= k < |t3|
      ensures !IsUpper(t3[k])
    {
      assert t3[k] == t[k + |a| + 2];
      assert s[k + |a| + 1] == b[k];
    }
    CapitalsOfNoUpper(t1);
    CapitalsOfNoUpper(t3);
    CapitalsAppend(t0 + t1 + t2, t3);
    CapitalsAppend(t0 + t1, t2);
    CapitalsAppend(t0, t1);
    assert Capitals(t0) == [t[0]] by { assert t0[1..] == []; }
    assert Capitals(t2) == [t[|a| + 1]] by { assert t2[1..] == []; }
    assert t[0] == UpperChar(a[0]) && t[|a| + 1] == UpperChar(b[0]);
  }

  /* ---------- service_name ---------- */

  /** The two strings `service_name` returns. */
  datatype Named = Named(name: string, abbrev: string)

  /** Why `service_name` raises: the mining step fails, or `random.choice` meets an empty list. */
  datatype NameError = MiningFailed(cause: MiningError) | NoNoun | NoVerb | NoProperNoun

  /** `service_name`. It fails exactly when the mining fails or one of the vocabularies is empty
      (all three are drawn from whatever the slots finally use), reporting the first failure in
      source order. On success both strings are built from one slot assignment the candidate
      lists allow. */
  function ServiceName(names: seq<string>, index: Index, d: NameDraws): (r: Result<Named, NameError>)
    ensures MineNames(names).Failure? ==> r == Failure(MiningFailed(MineNames(names).error))
    ensures MineNames(names).Success? ==>
      (r.Failure? <==> Nouns(index) == [] || Verbs(index) == [] || ProperNouns(index) == [])
    ensures MineNames(names).Success? ==> (r == Failure(NoNoun) <==> Nouns(index) == [])
    ensures MineNames(names).Success? ==>
      (r == Failure(NoVerb) <==> Nouns(index) != [] && Verbs(index) == [])
    ensures MineNames(names).Success? ==>
      (r == Failure(NoProperNoun) <==> Nouns(index) != [] && Verbs(index) != [] && ProperNouns(index) == [])
    ensures r.Success? ==>
      exists s :: SlotsDrawn(s, MineNames(names).value, Nouns(index), Verbs(index), ProperNouns(index))
        && r.value == Named(NameString(s), AbbrevString(s))
  {
    match MineNames(names)
    case Failure(e) => Failure(MiningFailed(e))
    case Success(stats) =>
      var nouns := Nouns(index);
      var verbs := Verbs(index);
      var proper := ProperNouns(index);
      if nouns == [] then Failure(NoNoun)
      else if verbs == [] then Failure(NoVerb)
      else if proper == [] then Failure(NoProperNoun)
      else
        var s := ComposeSlots(stats, nouns, verbs, proper, d);
        Success(Named(NameString(s), AbbrevString(s)))
  }

  /** Both strings of one slot assignment: the name starts with its brand, and the
      abbreviation is empty or starts with the same token. */
  lemma NamedShape(s: Slots)
    requires s.brand == "AWS" || s.brand == "Amazon"
    requires forall k :: 0 <= k < |s.acronym| ==> !IsSpace(s.acronym[k])
    ensures var n := NameString(s);
      (|n| >= 3 && n[..3] == "AWS") || (|n| >= 6 && n[..6] == "Amazon")
    ensures var ab := AbbrevString(s);
      ab == "" || (|Split(ab)| >= 2 && |Split(NameString(s))| > 0 && Split(ab)[0] == Split(NameString(s))[0])
  {
    NameStartsWithBrand(s);
    AbbrevEmptyIff(s);
    if s.acronym != "" {
      AbbrevTokens(s);
    }
  }

  /** An acronym slot holds capitals and digits only. */
  lemma DrawnAcronymHasNoSpace(s: Slots, stats: NameStats, nouns: seq<string>, verbs: seq<string>, proper: seq<string>)
    requires SlotsDrawn(s, stats, nouns, verbs, proper)
    ensures forall k :: 0 <= k < |s.acronym| ==> !IsSpace(s.acronym[k])
  {
    if s.acronym != "" {
      var acr := ServiceAcronym(AcronymSource(s.prefix, s.wordA, s.wordB, s.suffix));
      forall k | 0 <= k < |acr|
        ensures !IsSpace(acr[k])
      {
        assert IsUpper(acr[k]) || IsDigit(acr[k]);
      }
    }
  }

  /** On success the name starts with "AWS" or "Amazon", and the abbreviation is empty or
      starts with the same brand. */
  lemma ServiceNameShape(names: seq<string>, index: Index, d: NameDraws)
    requires ServiceName(names, index, d).Success?
    ensures var n := ServiceName(names, index, d).value.name;
      (|n| >= 3 && n[..3] == "AWS") || (|n| >= 6 && n[..6] == "Amazon")
    ensures var nm := ServiceName(names, index, d).value;
      nm.abbrev == "" || (|Split(nm.abbrev)| >= 2 && |Split(nm.name)| > 0 && Split(nm.abbrev)[0] == Split(nm.name)[0])
  {
    var r := ServiceName(names, index, d);
    var stats := MineNames(names).value;
    var s :| SlotsDrawn(s, stats, Nouns(index), Verbs(index), ProperNouns(index))
      && r.value == Named(NameString(s), AbbrevString(s));
    DrawnAcronymHasNoSpace(s, stats, Nouns(index), Verbs(index), ProperNouns(index));
    NamedShape(s);
  }
}
