/**
  The corpus miner: `nltk_tags_by_tag`, which folds the tagger's (word, tag)
  pairs into a dictionary from each tag to the list of words seen with it.
  The same fold appears in the generator and in the earlier prototype.
 */
module TagIndex {
  import opened Seqs
  import opened Text

  /** One tagger output pair. */
  datatype Tagged = Tagged(word: string, tag: string)

  /** Tag to its word list, in insertion order. */
  type Index = map<string, seq<string>>

  /** The two literal tokens the fold skips; the comparison is exact, so "AWS" and "Amazon" pass. */
  predicate IsBrandToken(w: string) {
    w == "amazon" || w == "aws"
  }

  /** Reading the `defaultdict(list)`: a missing tag reads as the empty list. */
  function WordsOf(index: Index, tag: string): seq<string> {
    if tag in index then index[tag] else []
  }

  /** One loop iteration: a brand token is skipped; a word already in its tag's list (compared
      before stripping) is skipped; otherwise the stripped word is appended. */
  function Insert(index: Index, t: Tagged): Index {
    if IsBrandToken(t.word) then index
    else if t.word in WordsOf(index, t.tag) then index
    else index[t.tag := WordsOf(index, t.tag) + [Strip(t.word)]]
  }

  /** `nltk_tags_by_tag`: the fold of `Insert` over the pairs, left to right. */
  function TagsByTag(tagged: seq<Tagged>): Index {
    if tagged == [] then map[]
    else Insert(TagsByTag(tagged[..|tagged| - 1]), tagged[|tagged| - 1])
  }

  /** The words of the pairs bearing `tag`, in input order. */
  function WithTag(tagged: seq<Tagged>, tag: string): seq<string> {
    if tagged == [] then []
    else
      var last := tagged[|tagged| - 1];
      WithTag(tagged[..|tagged| - 1], tag) + (if last.tag == tag then [last.word] else [])
  }

  /** One loop iteration as seen by a single tag's list. */
  function BucketStep(b: seq<string>, w: string): seq<string> {
    if IsBrandToken(w) || w in b then b else b + [Strip(w)]
  }

  /** The fold restricted to a single tag's words. */
  function Bucket(words: seq<string>): seq<string> {
    if words == [] then [] else BucketStep(Bucket(words[..|words| - 1]), words[|words| - 1])
  }

  lemma InsertReads(index: Index, t: Tagged, tag: string)
    ensures WordsOf(Insert(index, t), tag) == if t.tag == tag then BucketStep(WordsOf(index, tag), t.word) else WordsOf(index, tag)
  {
  }

  /** Every word stripped, in order. */
  function StripAll(words: seq<string>): (r: seq<string>)
    ensures |r| == |words|
    ensures forall i :: 0 <= i < |words| ==> r[i] == Strip(words[i])
  {
    if words == [] then []
    else
      var init := words[..|words| - 1];
      var last := words[|words| - 1];
      assert words == init + [last];
      var rest := StripAll(init);
      PointwiseSnoc(init, rest, last, Strip(last), Strip);
      rest + [Strip(last)]
  }

  /** The words that are not brand tokens, in order. */
  function NonBrand(words: seq<string>): (r: seq<string>)
    ensures forall w :: w in r <==> w in words && !IsBrandToken(w)
  {
    if words == [] then []
    else
      var w := words[|words| - 1];
      NonBrand(words[..|words| - 1]) + (if IsBrandToken(w) then [] else [w])
  }

  /** Tagger words carry no surrounding whitespace (true of tokenizer output). */
  predicate AllStripped(words: seq<string>) {
    forall i :: 0 <= i < |words| ==> Strip(words[i]) == words[i]
  }

  /** The fold over all pairs agrees, tag by tag, with the fold over that tag's words alone:
      pairs bearing other tags never influence a tag's list. */
  lemma {:induction false} IndexIsBucketPerTag(tagged: seq<Tagged>, tag: string)
    ensures WordsOf(TagsByTag(tagged), tag) == Bucket(WithTag(tagged, tag))
  {
    if tagged != [] {
      var init := tagged[..|tagged| - 1];
      var last := tagged[|tagged| - 1];
      IndexIsBucketPerTag(init, tag);
      InsertReads(TagsByTag(init), last, tag);
      assert TagsByTag(tagged) == Insert(TagsByTag(init), last);
      if last.tag == tag {
        var ws := WithTag(init, tag) + [last.word];
        assert WithTag(tagged, tag) == ws;
        assert ws[..|ws| - 1] == WithTag(init, tag);
        assert Bucket(ws) == BucketStep(Bucket(WithTag(init, tag)), last.word);
      } else {
        assert WithTag(tagged, tag) == WithTag(init, tag) + [];
        assert WithTag(init, tag) + [] == WithTag(init, tag);
      }
    }
  }

  /** Every stored word is the stripped form of an input word bearing the tag, and the stored
      list keeps input order: it is a subsequence of the stripped input words. */
  lemma {:induction false} BucketIsSubsequence(words: seq<string>)
    ensures IsSubseq(Bucket(words), StripAll(words))
  {
    if words != [] {
      var init := words[..|words| - 1];
      var w := words[|words| - 1];
      BucketIsSubsequence(init);
      assert StripAll(words) == StripAll(init) + [Strip(w)];
      SubseqSnoc(Bucket(init), StripAll(init), Strip(w));
      if IsBrandToken(w) || w in Bucket(init) {
        assert Bucket(words) == Bucket(init);
      } else {
        assert Bucket(words) == Bucket(init) + [Strip(w)];
      }
    }
  }

  /** On whitespace-free words the fold is first-occurrence de-duplication of the non-brand words. */
  lemma {:induction false} BucketIsDedup(words: seq<string>)
    requires AllStripped(words)
    ensures Bucket(words) == Dedup(NonBrand(words))
  {
    if words != [] {
      var init := words[..|words| - 1];
      var w := words[|words| - 1];
      assert AllStripped(init);
      assert Strip(w) == w;
      BucketIsDedup(init);
      assert Bucket(words) == BucketStep(Bucket(init), w);
      var nb := NonBrand(init);
      if IsBrandToken(w) {
        assert NonBrand(words) == nb + [];
        assert nb + [] == nb;
      } else {
        assert NonBrand(words) == nb + [w];
        DedupSnoc(nb, w);
        assert w in Bucket(init) <==> w in nb;
        if w in nb {
          assert Bucket(words) == Bucket(init);
        } else {
          assert Bucket(words) == Bucket(init) + [w];
        }
      }
    }
  }

  /** The tag index of whitespace-free tagger output: each tag's list is the first-occurrence
      de-duplication of that tag's non-brand words, so it has no duplicates, holds no "amazon"
      or "aws", and holds every other word seen with the tag. */
  lemma TagIndexContents(tagged: seq<Tagged>, tag: string)
    requires forall i :: 0 <= i < |tagged| ==> Strip(tagged[i].word) == tagged[i].word
    ensures WordsOf(TagsByTag(tagged), tag) == Dedup(NonBrand(WithTag(tagged, tag)))
    ensures Distinct(WordsOf(TagsByTag(tagged), tag))
    ensures forall w :: w in WordsOf(TagsByTag(tagged), tag) <==> w in WithTag(tagged, tag) && !IsBrandToken(w)
  {
    WithTagStripped(tagged, tag);
    IndexIsBucketPerTag(tagged, tag);
    BucketIsDedup(WithTag(tagged, tag));
  }

  lemma {:induction false} WithTagStripped(tagged: seq<Tagged>, tag: string)
    requires forall i :: 0 <= i < |tagged| ==> Strip(tagged[i].word) == tagged[i].word
    ensures AllStripped(WithTag(tagged, tag))
  {
    if tagged != [] {
      WithTagStripped(tagged[..|tagged| - 1], tag);
    }
  }

  /** The duplicate test compares the unstripped word with stored stripped words, so a word with
      surrounding whitespace ("x ") is stored twice, stripped both times. */
  lemma PaddedWordStoredTwice(w: string, tag: string)
    requires !IsBrandToken(w) && Strip(w) != w
    ensures WordsOf(TagsByTag([Tagged(w, tag), Tagged(w, tag)]), tag) == [Strip(w), Strip(w)]
  {
    var t := Tagged(w, tag);
    var e: seq<Tagged> := [];
    assert [t][..0] == e && [t][0] == t;
    assert TagsByTag(e) == map[];
    var once := TagsByTag([t]);
    assert once == Insert(TagsByTag(e), t);
    assert WordsOf(once, tag) == [Strip(w)];
    assert [t, t][..1] == [t];
    assert w !in [Strip(w)];
    assert TagsByTag([t, t]) == Insert(once, t);
  }

  /** The brand test is case-sensitive: capitalised brand tokens are kept. */
  lemma CapitalisedBrandKept()
    ensures WordsOf(TagsByTag([Tagged("aws", "NNP"), Tagged("AWS", "NNP")]), "NNP") == ["AWS"]
  {
    var a := Tagged("aws", "NNP");
    var b := Tagged("AWS", "NNP");
    assert [a, b][..1] == [a];
    assert [a][..0] == [];
    assert Strip("AWS") == "AWS";
  }
}
