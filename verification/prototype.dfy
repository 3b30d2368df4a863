/**
  The earlier prototype at the repository root: the same tag-index fold
  (`TagIndex.TagsByTag`), a seed phrase that keeps the verb as written, and a
  retry loop that prints the first sentence the model produces.

  The loop's only output is what it prints, so the model returns the printed
  lines: two empty lines, the attempt number before each attempt, and
  "AWS Test" with the sentence (`None` when the model returns none).
 */
module Prototype {
  import opened Outcomes
  import opened Text
  import opened TagIndex
  import opened Description

  /** The prototype's `start_expression`: "is a", "is an" or a verb exactly as tagged. The verb
      is drawn first, so the verb list must not be empty. */
  function PrototypeStart(verbs: seq<string>, draw: SeedDraw): (r: Result<string, DescFault>)
    ensures r.Failure? <==> verbs == []
    ensures r.Success? ==> r.value == "is a" || r.value == "is an" || r.value in verbs
  {
    if verbs == [] then Failure(EmptyVerbs)
    else
      var verb := verbs[draw.verbPick % |verbs|];
      match draw.slot
      case IsA => Success("is a")
      case IsAn => Success("is an")
      case VerbSeed => Success(verb)
  }

  /** The two seed phrases agree on the fixed phrases and differ only by lower-casing a verb. */
  lemma SeedsDifferByLowerCase(verbs: seq<string>, draw: SeedDraw)
    requires verbs != []
    ensures StartExpression(verbs, draw).value ==
      if draw.slot == VerbSeed then Lower(PrototypeStart(verbs, draw).value) else PrototypeStart(verbs, draw).value
  {
  }

  /** The prototype's `markov` loop ends in one of three ways. */
  datatype MarkovOutcome = Printed(sentence: Option<string>) | AllParamErrors | StartRaised

  /** `print("AWS Test", sentence)`: the two values separated by a space, `None` printed as such. */
  function TestLine(g: Generation): string
    requires !g.ParamError?
  {
    "AWS Test " + (if g.Sentence? then g.text else "None")
  }

  /** The prototype's attempt `i`, with its own seed phrase. */
  function ProtoAttempt(text: string, verbs: seq<string>, model: (string, string, nat) -> Generation,
                        draw: nat -> SeedDraw, i: nat): Result<Generation, DescFault>
  {
    match PrototypeStart(verbs, draw(i))
    case Failure(e) => Failure(e)
    case Success(seed) => Success(model(text, seed, i))
  }

  /** The attempt numbers printed before attempts 0 to n - 1. */
  function Counter(n: nat): (r: seq<string>)
    ensures |r| == n
    ensures forall i :: 0 <= i < n ==> r[i] == Decimal(i)
  {
    if n == 0 then [] else Counter(n - 1) + [Decimal(n - 1)]
  }

  /** Attempts 0 to n - 1 all raised `ParamError`. */
  ghost predicate ParamErrorsBefore(text: string, verbs: seq<string>, model: (string, string, nat) -> Generation,
                                    draw: nat -> SeedDraw, n: nat)
  {
    forall j :: 0 <= j < n ==> ProtoAttempt(text, verbs, model, draw, j) == Success(ParamError)
  }

  /** The prototype stopped at attempt n: every earlier attempt raised `ParamError`, attempt n
      produced something else, and its result was printed after the counters. */
  ghost predicate PrintedAt(outcome: MarkovOutcome, lines: seq<string>, text: string, verbs: seq<string>,
                            model: (string, string, nat) -> Generation, draw: nat -> SeedDraw, n: nat)
  {
    && n < MaxAttempts
    && ParamErrorsBefore(text, verbs, model, draw, n)
    && ProtoAttempt(text, verbs, model, draw, n).Success?
    && var g := ProtoAttempt(text, verbs, model, draw, n).value;
       && !g.ParamError?
       && lines == ["", ""] + Counter(n + 1) + [TestLine(g)]
       && outcome == Printed(if g.Sentence? then Some(g.text) else None)
  }

  /** `markov`: the verbs are the VBZ words of the tag index. It makes at most one hundred
      attempts, retries only on `ParamError`, and stops after the first attempt that does not
      raise, printing whatever it produced, a missing sentence included. An empty verb list
      raises at the first seed phrase, after "0" is printed. */
  method Markov(text: string, tags: seq<Tagged>, model: (string, string, nat) -> Generation, draw: nat -> SeedDraw)
    returns (outcome: MarkovOutcome, lines: seq<string>)
    ensures var verbs := WordsOf(TagsByTag(tags), "VBZ");
      && (verbs == [] <==> outcome == StartRaised)
      && (outcome == StartRaised ==> lines == ["", "", "0"])
      && (outcome == AllParamErrors <==> verbs != [] && ParamErrorsBefore(text, verbs, model, draw, MaxAttempts))
      && (outcome == AllParamErrors ==> lines == ["", ""] + Counter(MaxAttempts))
      && (outcome.Printed? ==> exists n: nat :: PrintedAt(outcome, lines, text, verbs, model, draw, n))
  {
    var verbs := WordsOf(TagsByTag(tags), "VBZ");
    lines := ["", ""];
    var i := 0;
    while i < MaxAttempts
      invariant 0 <= i <= MaxAttempts
      invariant lines == ["", ""] + Counter(i)
      invariant ParamErrorsBefore(text, verbs, model, draw, i)
      invariant verbs == [] ==> i == 0
    {
      lines := lines + [Decimal(i)];
      var attempt := ProtoAttempt(text, verbs, model, draw, i);
      if attempt.Failure? {
        assert lines == ["", "", "0"];
        return StartRaised, lines;
      }
      var g := attempt.value;
      if !g.ParamError? {
        lines := lines + [TestLine(g)];
        outcome := Printed(if g.Sentence? then Some(g.text) else None);
        assert PrintedAt(outcome, lines, text, verbs, model, draw, i);
        return;
      }
      i := i + 1;
    }
    return AllParamErrors, lines;
  }
}
