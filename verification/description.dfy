/**
  The description generator, `service_desc`: a Markov-chain sentence model
  built from the corpus is asked, up to one hundred times, for a sentence that
  starts with a seed phrase from `start_expression`; the first sentence short
  enough for the budget that does not read "is a(n) AWS/Amazon ..." is kept.

  The sentence model is a foreign library. It is a parameter here: given the
  corpus, the seed phrase and the attempt number it either raises its
  `ParamError`, returns no sentence, or returns one.
 */
module Description {
  import opened Outcomes
  import opened Text

  /** What one call of the sentence model produces. */
  datatype Generation = ParamError | NoSentence | Sentence(text: string)

  /** The weighted draw among the three seed phrases. */
  datatype SeedSlot = IsA | IsAn | VerbSeed

  /** One attempt's draws: which verb `random.choice` picks, and which phrase is used. */
  datatype SeedDraw = SeedDraw(verbPick: nat, slot: SeedSlot)

  /** Why the generator raises: `random.choice` on an empty verb list, or `len(None)`. */
  datatype DescFault = EmptyVerbs | NoneSentence

  datatype DescOutcome = Accepted(sentence: string) | Exhausted | Raised(fault: DescFault)

  const MaxAttempts: nat := 100

  /** `start_expression`: "is a", "is an" or a lower-cased verb. The verb is drawn before the
      weighted pick, so an empty verb list raises whatever phrase would have been used. */
  function StartExpression(verbs: seq<string>, draw: SeedDraw): (r: Result<string, DescFault>)
    ensures r.Failure? <==> verbs == []
    ensures r.Failure? ==> r.error == EmptyVerbs
    ensures r.Success? ==>
      r.value == "is a" || r.value == "is an" || exists i :: 0 <= i < |verbs| && r.value == Lower(verbs[i])
  {
    if verbs == [] then Failure(EmptyVerbs)
    else
      var verb := Lower(verbs[draw.verbPick % |verbs|]);
      match draw.slot
      case IsA => Success("is a")
      case IsAn => Success("is an")
      case VerbSeed => Success(verb)
  }

  /** Every lower-cased verb, and both fixed phrases, can start a description. */
  lemma StartExpressionReachesAll(verbs: seq<string>, i: nat)
    requires i < |verbs|
    ensures StartExpression(verbs, SeedDraw(i, VerbSeed)) == Success(Lower(verbs[i]))
    ensures StartExpression(verbs, SeedDraw(i, IsA)) == Success("is a")
    ensures StartExpression(verbs, SeedDraw(i, IsAn)) == Success("is an")
  {
    assert i % |verbs| == i;
  }

  /** `re.search(r"is an? (AWS|Amazon)", s)`. */
  predicate Degenerate(s: string) {
    Occurs("is a AWS", s) || Occurs("is an AWS", s) || Occurs("is a Amazon", s) || Occurs("is an Amazon", s)
  }

  /** A sentence is kept when it is shorter than the budget and not degenerate. */
  predicate Acceptable(s: string, maxLen: int) {
    |s| < maxLen && !Degenerate(s)
  }

  lemma {:induction false} OccursAppend(pat: string, a: string, b: string)
    requires Occurs(pat, b)
    ensures Occurs(pat, a + b)
    decreases |a|
  {
    if a == [] {
      assert a + b == b;
    } else {
      assert (a + b)[1..] == a[1..] + b;
      OccursAppend(pat, a[1..], b);
    }
  }

  lemma OccursAtStart(pat: string, b: string)
    ensures Occurs(pat, pat + b)
  {
    assert (pat + b)[..|pat|] == pat;
  }

  /** A sentence is rejected wherever the pattern sits in it, for example after a first clause:
      "... is an AWS product" never reaches the post. */
  lemma DegenerateAnywhere(a: string, b: string)
    ensures Degenerate(a + "is an AWS" + b)
    ensures Degenerate(a + "is a Amazon" + b)
  {
    OccursAtStart("is an AWS", b);
    OccursAppend("is an AWS", a, "is an AWS" + b);
    assert a + "is an AWS" + b == a + ("is an AWS" + b);
    OccursAtStart("is a Amazon", b);
    OccursAppend("is a Amazon", a, "is a Amazon" + b);
    assert a + "is a Amazon" + b == a + ("is a Amazon" + b);
  }

  /** The outcome of attempt `i`: the seed phrase is drawn, then the model is called with it. */
  function Attempt(corpus: string, verbs: seq<string>, model: (string, string, nat) -> Generation,
                   draw: nat -> SeedDraw, i: nat): Result<Generation, DescFault>
  {
    match StartExpression(verbs, draw(i))
    case Failure(e) => Failure(e)
    case Success(seed) => Success(model(corpus, seed, i))
  }

  /** An attempt that makes the loop go on: a `ParamError`, or a sentence that is too long or
      degenerate. */
  predicate Rejected(g: Generation, maxLen: int) {
    g.ParamError? || (g.Sentence? && !Acceptable(g.text, maxLen))
  }

  /** The first `n` attempts all made the loop go on. */
  ghost predicate AllRejected(corpus: string, verbs: seq<string>, model: (string, string, nat) -> Generation,
                              draw: nat -> SeedDraw, maxLen: int, n: nat) {
    verbs != [] &&
    forall j :: 0 <= j < n ==> Rejected(Attempt(corpus, verbs, model, draw, j).value, maxLen)
  }

  /** Attempt `n` is where the loop stops with `d`: all attempts before it were rejected, and it
      produced the accepted sentence of `d`, or no sentence when `d` is the `len(None)` fault. */
  ghost predicate StopsAt(d: DescOutcome, corpus: string, verbs: seq<string>,
                          model: (string, string, nat) -> Generation, draw: nat -> SeedDraw, maxLen: int, n: nat) {
    && n < MaxAttempts
    && AllRejected(corpus, verbs, model, draw, maxLen, n)
    && match d
       case Accepted(s) => Attempt(corpus, verbs, model, draw, n) == Success(Sentence(s)) && Acceptable(s, maxLen)
       case Raised(f) => f == NoneSentence && Attempt(corpus, verbs, model, draw, n) == Success(NoSentence)
       case Exhausted => false
  }

  /** The outcome `service_desc` must report for these attempts: a fault for an empty verb list
      and no other time; `Exhausted` exactly when all one hundred attempts were rejected;
      otherwise the stop at the first attempt that was not rejected. */
  ghost predicate DescribesAttempts(d: DescOutcome, corpus: string, verbs: seq<string>,
                                    model: (string, string, nat) -> Generation, draw: nat -> SeedDraw, maxLen: int) {
    && (verbs == [] <==> d == Raised(EmptyVerbs))
    && (d == Exhausted <==> AllRejected(corpus, verbs, model, draw, maxLen, MaxAttempts))
    && (d.Accepted? || d == Raised(NoneSentence) ==>
          exists n: nat :: StopsAt(d, corpus, verbs, model, draw, maxLen, n))
  }

  /** A stop at attempt `n` contradicts attempt `n` being rejected. */
  lemma {:induction false} StopIsNotRejected(d: DescOutcome, corpus: string, verbs: seq<string>,
                                             model: (string, string, nat) -> Generation, draw: nat -> SeedDraw,
                                             maxLen: int, n: nat, m: nat)
    requires StopsAt(d, corpus, verbs, model, draw, maxLen, n)
    requires n < m
    ensures !AllRejected(corpus, verbs, model, draw, maxLen, m)
  {
    var g := Attempt(corpus, verbs, model, draw, n);
    assert !Rejected(g.value, maxLen);
  }

  /** Two stops for the same attempts are the same stop. */
  lemma {:induction false} StopsAtUnique(d1: DescOutcome, d2: DescOutcome, corpus: string, verbs: seq<string>,
                                         model: (string, string, nat) -> Generation, draw: nat -> SeedDraw,
                                         maxLen: int, n1: nat, n2: nat)
    requires StopsAt(d1, corpus, verbs, model, draw, maxLen, n1)
    requires StopsAt(d2, corpus, verbs, model, draw, maxLen, n2)
    ensures n1 == n2 && d1 == d2
  {
    if n1 < n2 {
      StopIsNotRejected(d1, corpus, verbs, model, draw, maxLen, n1, n2);
    } else if n2 < n1 {
      StopIsNotRejected(d2, corpus, verbs, model, draw, maxLen, n2, n1);
    }
  }

  /** The attempts determine the outcome: two outcomes that both describe the same attempts are
      equal. */
  lemma {:induction false} DescribesAttemptsUnique(d1: DescOutcome, d2: DescOutcome, corpus: string, verbs: seq<string>,
                                                   model: (string, string, nat) -> Generation, draw: nat -> SeedDraw, maxLen: int)
    requires DescribesAttempts(d1, corpus, verbs, model, draw, maxLen)
    requires DescribesAttempts(d2, corpus, verbs, model, draw, maxLen)
    ensures d1 == d2
  {
    if verbs != [] && d1 != Exhausted && d2 != Exhausted {
      var n1: nat :| StopsAt(d1, corpus, verbs, model, draw, maxLen, n1);
      var n2: nat :| StopsAt(d2, corpus, verbs, model, draw, maxLen, n2);
      StopsAtUnique(d1, d2, corpus, verbs, model, draw, maxLen, n1, n2);
    }
  }

  /** `service_desc`. `calls` counts the model calls. The result is the first acceptable
      sentence; `Exhausted` (the function's `None`) exactly when all one hundred attempts are
      rejected; a fault when the verb list is empty (before any call) or when the model returns
      no sentence before an acceptable one. */
  method ServiceDesc(corpus: string, verbs: seq<string>, maxLen: int,
                     model: (string, string, nat) -> Generation, draw: nat -> SeedDraw)
    returns (r: DescOutcome, calls: nat)
    ensures calls <= MaxAttempts
    ensures verbs == [] <==> r == Raised(EmptyVerbs)
    ensures r == Raised(EmptyVerbs) ==> calls == 0
    ensures r.Accepted? ==>
      && calls >= 1
      && Attempt(corpus, verbs, model, draw, calls - 1) == Success(Sentence(r.sentence))
      && Acceptable(r.sentence, maxLen)
      && AllRejected(corpus, verbs, model, draw, maxLen, calls - 1)
    ensures r == Raised(NoneSentence) ==>
      && calls >= 1
      && Attempt(corpus, verbs, model, draw, calls - 1) == Success(NoSentence)
      && AllRejected(corpus, verbs, model, draw, maxLen, calls - 1)
    ensures r == Exhausted <==> AllRejected(corpus, verbs, model, draw, maxLen, MaxAttempts)
    ensures r == Exhausted ==> calls == MaxAttempts
    ensures DescribesAttempts(r, corpus, verbs, model, draw, maxLen)
  {
    calls := 0;
    var i := 0;
    while i < MaxAttempts
      invariant 0 <= i <= MaxAttempts
      invariant calls == i
      invariant verbs == [] ==> i == 0
      invariant verbs != [] ==> AllRejected(corpus, verbs, model, draw, maxLen, i)
    {
      var attempt := Attempt(corpus, verbs, model, draw, i);
      if attempt.Failure? {
        assert verbs == [];
        return Raised(EmptyVerbs), calls;
      }
      calls := calls + 1;
      match attempt.value {
        case ParamError =>
        case NoSentence =>
          assert StopsAt(Raised(NoneSentence), corpus, verbs, model, draw, maxLen, i);
          return Raised(NoneSentence), calls;
        case Sentence(s) =>
          if Acceptable(s, maxLen) {
            assert StopsAt(Accepted(s), corpus, verbs, model, draw, maxLen, i);
            return Accepted(s), calls;
          }
      }
      i := i + 1;
    }
    return Exhausted, calls;
  }
}
