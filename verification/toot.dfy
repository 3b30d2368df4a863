/**
  The bot's `main`: build the corpus from the product items, index it by tag,
  compose a product name, write the two-line intro, give the sentence model
  what is left of the 500-character limit, and assemble the post
  "<intro> <description>". Loading the items and sending the post are I/O and
  stay outside; the tagger and the sentence model are parameters.
 */
module Toot {
  import opened Outcomes
  import opened Text
  import opened TagIndex
  import opened NameComposer
  import opened Description

  /** The maximum post length. */
  const MaxLen: int := 500

  const TradeMark: char := '\U{2122}'

  /** One scraped product. */
  datatype Item = Item(name: string, blurb: string, desc: string)

  function Names(items: seq<Item>): (r: seq<string>)
    ensures |r| == |items| && forall i :: 0 <= i < |items| ==> r[i] == items[i].name
  {
    seq(|items|, i requires 0 <= i < |items| => items[i].name)
  }

  function Blurbs(items: seq<Item>): (r: seq<string>)
    ensures |r| == |items| && forall i :: 0 <= i < |items| ==> r[i] == items[i].blurb
  {
    seq(|items|, i requires 0 <= i < |items| => items[i].blurb)
  }

  function Descs(items: seq<Item>): (r: seq<string>)
    ensures |r| == |items| && forall i :: 0 <= i < |items| ==> r[i] == items[i].desc
  {
    seq(|items|, i requires 0 <= i < |items| => items[i].desc)
  }

  /** All blurbs, then all descriptions, joined with spaces. */
  function Corpus(items: seq<Item>): string {
    Join(Blurbs(items) + Descs(items))
  }

  /** The corpus holds exactly the tokens of every blurb and then of every description. */
  lemma CorpusTokens(items: seq<Item>)
    ensures Split(Corpus(items)) == SplitEach(Blurbs(items)) + SplitEach(Descs(items))
  {
    SplitJoin(Blurbs(items) + Descs(items));
    SplitEachAppend(Blurbs(items), Descs(items));
  }

  /** The second intro line: the abbreviation when there is one, the name otherwise. */
  function SecondLine(name: string, abbrev: string): string {
    if abbrev != "" then abbrev else name
  }

  /** `toot_intro`: "Introducing <name>™", a blank line, and the second line. The name and the
      second line can be read back from fixed positions. */
  function TootIntro(name: string, abbrev: string): (intro: string)
    ensures |intro| == 15 + |name| + |SecondLine(name, abbrev)|
    ensures intro[..12] == "Introducing "
    ensures intro[12..12 + |name|] == name
    ensures intro[12 + |name|] == TradeMark
    ensures intro[13 + |name|..15 + |name|] == "\n\n"
    ensures intro[15 + |name|..] == SecondLine(name, abbrev)
  {
    var line1 := "Introducing " + name + [TradeMark];
    var intro := line1 + "\n\n" + SecondLine(name, abbrev);
    assert intro[..12] == "Introducing ";
    assert intro[12..12 + |name|] == name;
    assert intro[13 + |name|..15 + |name|] == "\n\n";
    assert intro[15 + |name|..] == SecondLine(name, abbrev);
    intro
  }

  /** What is left of the limit for the description and its separating space. */
  function DescBudget(intro: string): int {
    MaxLen - |intro|
  }

  /** Why nothing is posted. */
  datatype PostError = NameFailed(nameError: NameError) | DescFailed(fault: DescFault) | NoDescription

  /** The post as `main` writes it: `f"{intro} {desc}"`, where a missing description (`None`)
      is formatted as the text "None". */
  function PostAsWritten(intro: string, d: DescOutcome): (r: Result<string, PostError>)
    ensures r.Failure? <==> d.Raised?
    ensures r.Success? ==> |r.value| > |intro| && r.value[..|intro| + 1] == intro + " "
  {
    match d
    case Raised(f) => Failure(DescFailed(f))
    case Exhausted => Success(intro + " " + "None")
    case Accepted(s) => Success(intro + " " + s)
  }

  /** When no description is found the bot posts its intro followed by the word "None", and with
      an intro of more than 495 characters that post is over the limit. */
  lemma ExhaustedPostsNone(intro: string)
    ensures PostAsWritten(intro, Exhausted) == Success(intro + " None")
    ensures |intro| > MaxLen - 5 ==> |PostAsWritten(intro, Exhausted).value| > MaxLen
  {
    assert intro + " " + "None" == intro + " None";
  }

  /** The post as intended: a missing description means nothing is posted. */
  function Post(intro: string, d: DescOutcome): (r: Result<string, PostError>)
    ensures r.Success? <==> d.Accepted?
    ensures r.Success? ==> r.value == intro + " " + d.sentence
    ensures d == Exhausted ==> r == Failure(NoDescription)
  {
    match d
    case Raised(f) => Failure(DescFailed(f))
    case Exhausted => Failure(NoDescription)
    case Accepted(s) => Success(intro + " " + s)
  }

  /** A description within the budget makes a post within the limit. */
  lemma PostFitsLimit(intro: string, d: DescOutcome)
    requires d.Accepted? ==> |d.sentence| < DescBudget(intro)
    ensures Post(intro, d).Success? ==> |Post(intro, d).value| <= MaxLen
  {
  }

  /** A post opens with "Introducing " and the name, so with the brand. */
  lemma PostShape(name: string, abbrev: string, sentence: string)
    requires (|name| >= 3 && name[..3] == "AWS") || (|name| >= 6 && name[..6] == "Amazon")
    ensures var p := TootIntro(name, abbrev) + " " + sentence;
      (|p| >= 15 && p[..15] == "Introducing AWS") || (|p| >= 18 && p[..18] == "Introducing Amazon")
  {
    var intro := TootIntro(name, abbrev);
    var p := intro + " " + sentence;
    assert p[..12 + |name|] == "Introducing " + name;
    if |name| >= 3 && name[..3] == "AWS" {
      assert p[..15] == "Introducing " + name[..3];
    } else {
      assert p[..18] == "Introducing " + name[..6];
    }
  }

  /** `main`, with the corrected ending: names come from the items, verbs are the VBZ words of
      the tag index, and the description budget is what the intro leaves of the limit. The
      description outcome is the one the attempts at that budget determine. A post starts with
      "Introducing AWS" or "Introducing Amazon", ends with the accepted description, and never
      exceeds the limit. */
  method Publish(items: seq<Item>, tagger: string -> seq<Tagged>, model: (string, string, nat) -> Generation,
                 seedDraw: nat -> SeedDraw, nameDraws: NameDraws)
    returns (r: Result<string, PostError>, desc: Option<DescOutcome>)
    ensures var named := ServiceName(Names(items), TagsByTag(tagger(Corpus(items))), nameDraws);
      (named.Failure? <==> desc == None) && (named.Failure? ==> r == Failure(NameFailed(named.error)))
    ensures r.Success? <==> desc.Some? && desc.value.Accepted?
    ensures r.Success? ==> |r.value| <= MaxLen
    ensures r.Success? ==>
      (|r.value| >= 15 && r.value[..15] == "Introducing AWS") || (|r.value| >= 18 && r.value[..18] == "Introducing Amazon")
    ensures r.Success? ==>
      var named := ServiceName(Names(items), TagsByTag(tagger(Corpus(items))), nameDraws).value;
      r.value == TootIntro(named.name, named.abbrev) + " " + desc.value.sentence
    ensures desc == Some(Exhausted) ==> r == Failure(NoDescription)
    ensures desc.Some? ==>
      var named := ServiceName(Names(items), TagsByTag(tagger(Corpus(items))), nameDraws).value;
      DescribesAttempts(desc.value, Corpus(items), WordsOf(TagsByTag(tagger(Corpus(items))), "VBZ"), model, seedDraw,
                        DescBudget(TootIntro(named.name, named.abbrev)))
  {
    var corpus := Corpus(items);
    var index := TagsByTag(tagger(corpus));
    var named := ServiceName(Names(items), index, nameDraws);
    if named.Failure? {
      return Failure(NameFailed(named.error)), None;
    }
    var intro := TootIntro(named.value.name, named.value.abbrev);
    var d, calls := ServiceDesc(corpus, WordsOf(index, "VBZ"), DescBudget(intro), model, seedDraw);
    desc := Some(d);
    PostFitsLimit(intro, d);
    r := Post(intro, d);
    if r.Success? {
      ServiceNameShape(Names(items), index, nameDraws);
      PostShape(named.value.name, named.value.abbrev, d.sentence);
    }
  }
}
