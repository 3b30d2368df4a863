/**
  The acronym deriver, `service_acronym`: collect the capitals A-Z of a name,
  give up on two or fewer, run-length encode consecutive equal capitals
  (`itertools.groupby`) writing a count only for runs longer than one, and keep
  the result only when it is two to four characters long.
 */
module Acronym {
  import opened Seqs
  import opened Text

  /** `re.findall(r"[A-Z]", s)`, as one string. */
  function Capitals(s: string): (cs: string)
    ensures |cs| <= |s|
    ensures forall k :: 0 <= k < |cs| ==> IsUpper(cs[k])
  {
    if s == [] then [] else (if IsUpper(s[0]) then [s[0]] else []) + Capitals(s[1..])
  }

  lemma {:induction false} CapitalsAppend(a: string, b: string)
    ensures Capitals(a + b) == Capitals(a) + Capitals(b)
    decreases |a|
  {
    if a == [] {
      assert a + b == b;
    } else {
      var h := if IsUpper(a[0]) then [a[0]] else [];
      assert (a + b)[0] == a[0];
      assert (a + b)[1..] == a[1..] + b;
      assert Capitals(a + b) == h + Capitals(a[1..] + b);
      assert Capitals(a) == h + Capitals(a[1..]);
      CapitalsAppend(a[1..], b);
    }
  }

  /** `Capitals` is a filter: it keeps the capitals of `s` in order, each as often as it occurs,
      and nothing else. */
  lemma {:induction false} CapitalsIsFilter(s: string)
    ensures IsSubseq(Capitals(s), s)
    ensures forall c :: Count(Capitals(s), c) == if IsUpper(c) then Count(s, c) else 0
    decreases |s|
  {
    if s != [] {
      var rest := Capitals(s[1..]);
      CapitalsIsFilter(s[1..]);
      assert s == [s[0]] + s[1..];
      if IsUpper(s[0]) {
        SubseqCons(rest, s[1..], s[0]);
        assert Capitals(s) == [s[0]] + rest;
        assert ([s[0]] + rest)[1..] == rest;
      } else {
        SubseqCons(rest, s[1..], s[0]);
        assert Capitals(s) == rest;
      }
    }
  }

  lemma {:induction false} CapitalsOfNoUpper(s: string)
    requires forall k :: 0 <= k < |s| ==> !IsUpper(s[k])
    ensures Capitals(s) == []
  {
    if s != [] {
      CapitalsOfNoUpper(s[1..]);
    }
  }

  /** Capitals of a word made of one capital and non-capitals. */
  lemma CapitalsOfWord(c: char, tail: string)
    requires IsUpper(c)
    requires forall k :: 0 <= k < |tail| ==> !IsUpper(tail[k])
    ensures Capitals([c] + tail) == [c]
  {
    assert ([c] + tail)[1..] == tail;
    CapitalsOfNoUpper(tail);
  }

  /** One `groupby` group: a letter and how many times it repeats. */
  datatype Run = Run(letter: char, count: nat)

  function Repeat(c: char, n: nat): (r: string)
    ensures |r| == n
    ensures forall k :: 0 <= k < n ==> r[k] == c
  {
    if n == 0 then [] else [c] + Repeat(c, n - 1)
  }

  /** Writes every run out in full. */
  function Expand(runs: seq<Run>): string {
    if runs == [] then [] else Repeat(runs[0].letter, runs[0].count) + Expand(runs[1..])
  }

  /** Every run is non-empty and neighbouring runs have different letters. */
  predicate Maximal(runs: seq<Run>) {
    (forall i :: 0 <= i < |runs| ==> runs[i].count >= 1)
    && (forall i :: 0 <= i < |runs| - 1 ==> runs[i].letter != runs[i + 1].letter)
  }

  /** `runs` are the maximal runs of `cs`. */
  predicate RunsOf(runs: seq<Run>, cs: string) {
    && Expand(runs) == cs
    && Maximal(runs)
    && |runs| <= |cs|
    && (runs != [] ==> runs[0].letter == cs[0])
    && (forall i :: 0 <= i < |runs| ==> runs[i].letter in cs)
  }

  /** The tail of maximal runs is maximal. */
  lemma MaximalTail(runs: seq<Run>)
    requires Maximal(runs) && runs != []
    ensures Maximal(runs[1..])
  {
    assert forall i :: 0 <= i < |runs| - 1 ==> runs[1..][i] == runs[i + 1];
  }

  /** Written out, a non-empty first run takes the first `count` characters. */
  lemma ExpandFirstRun(runs: seq<Run>)
    requires runs != []
    ensures Expand(runs) == Repeat(runs[0].letter, runs[0].count) + Expand(runs[1..])
    ensures |Expand(runs)| >= runs[0].count
    ensures forall k :: 0 <= k < runs[0].count ==> Expand(runs)[k] == runs[0].letter
    ensures Expand(runs)[runs[0].count..] == Expand(runs[1..])
  {
  }

  /** The character after the first run is the second run's letter. */
  lemma LetterAfterFirstRun(runs: seq<Run>)
    requires Maximal(runs) && |runs| >= 2
    ensures |Expand(runs)| > runs[0].count && Expand(runs)[runs[0].count] == runs[1].letter
  {
    ExpandFirstRun(runs);
    var tail := runs[1..];
    ExpandFirstRun(tail);
    assert tail[0] == runs[1];
    assert Expand(runs)[runs[0].count..] == Expand(tail);
    assert Expand(tail)[0] == runs[1].letter;
  }

  /** Two maximal run lists with the same letters: the first run of either is not shorter than
      the other's, since the character after it differs from its letter. */
  lemma RunNotShorter(a: seq<Run>, b: seq<Run>)
    requires Maximal(a) && Maximal(b) && a != [] && b != []
    requires Expand(a) == Expand(b)
    requires a[0].letter == b[0].letter
    ensures a[0].count >= b[0].count
  {
    ExpandFirstRun(a);
    ExpandFirstRun(b);
    if a[0].count < b[0].count && a[1..] != [] {
      LetterAfterFirstRun(a);
    }
  }

  /** A string has only one list of maximal runs, so `RunLength` is the only answer. */
  lemma {:induction false} MaximalRunsUnique(a: seq<Run>, b: seq<Run>)
    requires Maximal(a) && Maximal(b)
    requires Expand(a) == Expand(b)
    ensures a == b
    decreases |a|
  {
    if a == [] {
      if b != [] {
        ExpandFirstRun(b);
      }
    } else if b == [] {
      ExpandFirstRun(a);
    } else {
      ExpandFirstRun(a);
      ExpandFirstRun(b);
      assert a[0].letter == Expand(a)[0];
      RunNotShorter(a, b);
      RunNotShorter(b, a);
      assert a[0] == b[0];
      MaximalTail(a);
      MaximalTail(b);
      MaximalRunsUnique(a[1..], b[1..]);
      assert a == [a[0]] + a[1..];
      assert b == [b[0]] + b[1..];
    }
  }

  /** `[[k, len(list(g))] for k, g in groupby(cs)]`. */
  function RunLength(cs: string): (runs: seq<Run>)
    ensures Expand(runs) == cs
    ensures Maximal(runs)
    ensures |runs| <= |cs|
    ensures runs != [] ==> runs[0].letter == cs[0]
    ensures forall i :: 0 <= i < |runs| ==> runs[i].letter in cs
  {
    if cs == [] then []
    else
      var rest := RunLength(cs[1..]);
      assert RunsOf(rest, cs[1..]);
      if rest != [] && rest[0].letter == cs[0] then
        var merged := [Run(cs[0], rest[0].count + 1)] + rest[1..];
        GrowFirstRun(cs, rest);
        merged
      else
        var runs := [Run(cs[0], 1)] + rest;
        NewFirstRun(cs, rest);
        runs
  }

  /** A first letter equal to the first run's letter lengthens that run. */
  lemma {:induction false} GrowFirstRun(cs: string, rest: seq<Run>)
    requires cs != [] && RunsOf(rest, cs[1..])
    requires rest != [] && rest[0].letter == cs[0]
    ensures RunsOf([Run(cs[0], rest[0].count + 1)] + rest[1..], cs)
  {
    var merged := [Run(cs[0], rest[0].count + 1)] + rest[1..];
    ExpandGrow(cs[0], rest);
    assert cs == [cs[0]] + cs[1..];
    assert forall i :: 1 <= i < |merged| ==> merged[i] == rest[i];
    assert forall c :: c in cs[1..] ==> c in cs;
  }

  lemma {:induction false} ExpandGrow(c: char, rest: seq<Run>)
    requires rest != [] && rest[0].letter == c
    ensures Expand([Run(c, rest[0].count + 1)] + rest[1..]) == [c] + Expand(rest)
  {
    var merged := [Run(c, rest[0].count + 1)] + rest[1..];
    var r := Repeat(c, rest[0].count);
    var e := Expand(rest[1..]);
    assert merged[1..] == rest[1..];
    assert Repeat(c, rest[0].count + 1) == [c] + r;
    assert Expand(merged) == ([c] + r) + e;
    assert Expand(rest) == r + e;
    assert ([c] + r) + e == [c] + (r + e);
  }

  /** Any other first letter starts a new run. */
  lemma {:induction false} NewFirstRun(cs: string, rest: seq<Run>)
    requires cs != [] && RunsOf(rest, cs[1..])
    requires !(rest != [] && rest[0].letter == cs[0])
    ensures RunsOf([Run(cs[0], 1)] + rest, cs)
  {
    var runs := [Run(cs[0], 1)] + rest;
    assert runs[1..] == rest;
    assert cs == [cs[0]] + cs[1..];
    assert forall i :: 1 <= i < |runs| ==> runs[i] == rest[i - 1];
    assert forall c :: c in cs[1..] ==> c in cs;
  }

  /* ---------- encoding and decoding ---------- */

  /** `f"{letter}{count}"` when the run is longer than one, the bare letter otherwise. */
  function EncodeRun(r: Run): string {
    [r.letter] + (if r.count > 1 then Decimal(r.count) else "")
  }

  function Encode(runs: seq<Run>): string {
    if runs == [] then "" else EncodeRun(runs[0]) + Encode(runs[1..])
  }

  /** Length of the leading run of digits. */
  function DigitsLen(s: string): (n: nat)
    ensures n <= |s|
    ensures forall k :: 0 <= k < n ==> IsDigit(s[k])
    ensures n == |s| || !IsDigit(s[n])
  {
    if s == [] || !IsDigit(s[0]) then 0 else 1 + DigitsLen(s[1..])
  }

  /** Reads an acronym back as runs: each letter followed by an optional count, absent meaning one. */
  function Decode(s: string): seq<Run>
    decreases |s|
  {
    if s == [] then []
    else
      var n := DigitsLen(s[1..]);
      [Run(s[0], if n == 0 then 1 else ParseDecimal(s[1..1 + n]))] + Decode(s[1 + n..])
  }

  /** What an acronym stands for: its runs written out in full. */
  function Spell(acronym: string): string {
    Expand(Decode(acronym))
  }

  lemma {:induction false} DigitsLenBeforeLetter(ds: string, t: string)
    requires forall k :: 0 <= k < |ds| ==> IsDigit(ds[k])
    requires t == [] || !IsDigit(t[0])
    ensures DigitsLen(ds + t) == |ds|
    decreases |ds|
  {
    if ds == [] {
      assert ds + t == t;
    } else {
      assert (ds + t)[1..] == ds[1..] + t;
      DigitsLenBeforeLetter(ds[1..], t);
    }
  }

  /** One step of decoding: a letter, its digits, and a rest that does not start with a digit. */
  lemma DecodeStep(c: char, ds: string, rest: string)
    requires !IsDigit(c)
    requires forall k :: 0 <= k < |ds| ==> IsDigit(ds[k])
    requires rest == [] || !IsDigit(rest[0])
    ensures Decode([c] + ds + rest) == [Run(c, if ds == [] then 1 else ParseDecimal(ds))] + Decode(rest)
  {
    var s := [c] + ds + rest;
    assert s[1..] == ds + rest;
    DigitsLenBeforeLetter(ds, rest);
    assert s[1..1 + |ds|] == ds;
    assert s[1 + |ds|..] == rest;
  }

  /** An encoding starts with the first run's letter. */
  lemma EncodeStartsWithLetter(runs: seq<Run>)
    requires runs != []
    ensures Encode(runs) != [] && Encode(runs)[0] == runs[0].letter
  {
  }

  /** Decoding reads one encoded run back from the front. */
  lemma DecodeEncodeRun(r: Run, rest: string)
    requires r.count >= 1 && !IsDigit(r.letter)
    requires rest == [] || !IsDigit(rest[0])
    ensures Decode(EncodeRun(r) + rest) == [r] + Decode(rest)
  {
    var ds := if r.count > 1 then Decimal(r.count) else "";
    assert EncodeRun(r) + rest == [r.letter] + ds + rest;
    DecodeStep(r.letter, ds, rest);
    if r.count > 1 {
      ParseDecimalOfDecimal(r.count);
    }
  }

  /** Decoding inverts encoding, for non-empty runs of non-digit letters. */
  lemma {:induction false} DecodeEncode(runs: seq<Run>)
    requires forall i :: 0 <= i < |runs| ==> runs[i].count >= 1 && !IsDigit(runs[i].letter)
    ensures Decode(Encode(runs)) == runs
  {
    if runs != [] {
      var rest := Encode(runs[1..]);
      if runs[1..] != [] {
        EncodeStartsWithLetter(runs[1..]);
      }
      DecodeEncodeRun(runs[0], rest);
      DecodeEncode(runs[1..]);
      assert runs == [runs[0]] + runs[1..];
    }
  }

  lemma {:induction false} EncodeAtLeastRuns(runs: seq<Run>)
    ensures |Encode(runs)| >= |runs|
  {
    if runs != [] {
      EncodeAtLeastRuns(runs[1..]);
    }
  }

  /** An encoding of capital runs is made of capitals and digits only. */
  lemma {:induction false} EncodeChars(runs: seq<Run>)
    requires forall i :: 0 <= i < |runs| ==> IsUpper(runs[i].letter)
    ensures forall k :: 0 <= k < |Encode(runs)| ==> IsUpper(Encode(runs)[k]) || IsDigit(Encode(runs)[k])
  {
    if runs != [] {
      EncodeChars(runs[1..]);
      var e := EncodeRun(runs[0]);
      assert forall k :: 0 <= k < |e| ==> IsUpper(e[k]) || IsDigit(e[k]);
    }
  }

  /** `service_acronym`. A non-empty result is two to four capitals and digits, reads back as
      maximal runs, and spells back exactly the capitals of the name; it is the run-length
      encoding of those capitals. */
  function ServiceAcronym(name: string): (acronym: string)
    ensures |Capitals(name)| <= 2 ==> acronym == ""
    ensures acronym != "" ==> 2 <= |acronym| <= 4 && Spell(acronym) == Capitals(name)
    ensures acronym != "" ==> Maximal(Decode(acronym)) && acronym == Encode(RunLength(Capitals(name)))
    ensures forall k :: 0 <= k < |acronym| ==> IsUpper(acronym[k]) || IsDigit(acronym[k])
  {
    var initials := Capitals(name);
    if |initials| <= 2 then ""
    else
      var runs := RunLength(initials);
      var acronym := Encode(runs);
      DecodeEncode(runs);
      EncodeChars(runs);
      if !(2 <= |acronym| <= 4) then "" else acronym
  }

  /** The runs an acronym reads back as are the maximal runs of the name's capitals. */
  lemma AcronymRuns(name: string)
    requires ServiceAcronym(name) != ""
    ensures Decode(ServiceAcronym(name)) == RunLength(Capitals(name))
  {
    MaximalRunsUnique(Decode(ServiceAcronym(name)), RunLength(Capitals(name)));
  }

  /** With three capitals or more the encoding is never shorter than two characters, so the only
      rejection that can fire is the one for encodings longer than four. */
  lemma AcronymRejectsOnlyLongEncodings(name: string)
    requires |Capitals(name)| >= 3
    ensures ServiceAcronym(name) == "" <==> |Encode(RunLength(Capitals(name)))| > 4
  {
    var runs := RunLength(Capitals(name));
    EncodeAtLeastRuns(runs);
    if |runs| == 1 {
      assert Expand(runs) == Repeat(runs[0].letter, runs[0].count) + Expand(runs[1..]);
      assert runs[0].count >= 3;
      assert |Encode(runs)| >= |EncodeRun(runs[0])|;
    }
  }

  lemma RunLengthOfTTA()
    ensures RunLength("TTA") == [Run('T', 2), Run('A', 1)]
  {
    assert "A"[1..] == [];
    assert RunLength("A") == [Run('A', 1)];
    assert "TA"[1..] == "A";
    var ta := RunLength("TA");
    assert ta == [Run('T', 1), Run('A', 1)];
    assert "TTA"[1..] == "TA";
    assert ta[1..] == [Run('A', 1)];
  }

  lemma RunsOfTTA()
    ensures Encode(RunLength("TTA")) == "T2A"
  {
    RunLengthOfTTA();
    var runs := [Run('T', 2), Run('A', 1)];
    assert Decimal(2) == "2";
    assert EncodeRun(runs[0]) == "T2";
    assert EncodeRun(runs[1]) == "A";
    assert runs[1..][1..] == [];
    assert Encode(runs[1..]) == "A";
  }

  /** The worked example: a name whose capitals are T, T, A (such as "ThisThatAardvark") gets "T2A". */
  lemma RunLengthExample(name: string)
    requires Capitals(name) == "TTA"
    ensures ServiceAcronym(name) == "T2A"
  {
    RunsOfTTA();
  }

  /** Three equal capitals (as in "ThisThat Thing") collapse to one letter and a count: "T3". */
  lemma TripleRunExample(name: string)
    requires Capitals(name) == "TTT"
    ensures ServiceAcronym(name) == "T3"
  {
    assert RunLength("TTT") == [Run('T', 3)] by {
      assert "TTT"[1..] == "TT" && "TT"[1..] == "T" && "T"[1..] == [];
      assert RunLength("T") == [Run('T', 1)];
      assert RunLength("TT") == [Run('T', 2)];
    }
    assert Encode([Run('T', 3)]) == "T3" by {
      assert Decimal(3) == "3";
    }
  }
}
