# aws_prodbot: the generation core in Dafny

aws_prodbot is a bot that makes up cloud-product announcements. It reads a file of real
product items (name, blurb, description). From them it builds:

- a part-of-speech **tag index** of the blurbs and descriptions;
- **name statistics**: the most frequent first and last words of the existing product names.

From these it composes a new product name. The name has a brand, a prefix, a "middle name" made
of corpus words, a suffix, an optional acronym in parentheses and an optional
"for <proper noun>" purpose. It also builds an abbreviation: brand, acronym, purpose. A
Markov-chain sentence model then writes a description. The model is asked up to one hundred
times for a sentence that fits what is left of the 500-character limit and does not read
"is a(n) AWS/Amazon ...". The post is "Introducing <name>™", a blank line, the abbreviation (or
the name again), a space and the description.

This project models that pipeline as pure functions and loop methods and proves properties of
it. Every random draw is an explicit input: a `random.choice` is a natural number taken modulo
the list length, and a weighted `random.choices` is a choice among the alternatives. The
part-of-speech tagger and the Markov sentence model are function parameters. The
earlier prototype at the repository root (`app.py`) shares the tag-index fold; its seed phrase
and its print loop are modelled beside the bot.

Modules, in dependency order:

| file | module | models |
|---|---|---|
| outcomes.dfy | Outcomes | `Result` and `Option` |
| seqs.dfy | Seqs | distinctness, de-duplication, counting, subsequences |
| text.dfy | Text | the Python string operations the code relies on: `isspace`, `lower`, `upper`, `strip`, `split()`, `" ".join`, `title`, decimal formatting, substring search |
| tag_index.dfy | TagIndex | `nltk_tags_by_tag` |
| acronym.dfy | Acronym | `service_acronym` |
| frequency.dfy | Frequency | `FreqDist(...).most_common(k)` |
| name_mining.dfy | NameMining | the normalisation of existing names and the prefix/suffix statistics at the start of `service_name` |
| name_composer.dfy | NameComposer | the vocabularies and the slot assembly of `service_name` |
| description.dfy | Description | `start_expression` and `service_desc` |
| prototype.dfy | Prototype | `start_expression` and `markov` of `app.py` |
| toot.dfy | Toot | `toot_intro` and `main` |

Behaviour of the code that the model keeps, and that a reader may not expect:

- **Brand exclusion is case-sensitive.** The tag-index fold skips exactly "amazon" and "aws".
  "AWS" and "Amazon" are kept (`TagIndex.CapitalisedBrandKept`).
- **Duplicates can be stored.** A tag's word list has no duplicates only when the tagger's words
  carry no surrounding whitespace. The duplicate test compares the unstripped word with the
  stored stripped words (`TagIndex.PaddedWordStoredTwice`).
- **The top lists have fixed caps.** `most_common(14)` and `most_common(13)` keep at most 14
  prefixes and 13 suffixes: all of the pool's distinct entries when there are fewer
  (`Frequency.MostCommon`, `Frequency.MostCommonKeepsAll`).
- **Ties go to the first-seen entry.** A `FreqDist` is a `Counter`, and `Counter.most_common`
  sorts stably by count. Entries of equal count keep the order in which the pool first shows
  them, so at the cut-off the earliest of the tied entries are kept (`Frequency.MostCommon`,
  `Frequency.MostCommonOfUnique`). The counting library is not part of this model. This tie
  rule is its documented behaviour.
- **The degenerate-sentence test looks at the whole sentence.** The regular expression search is
  unanchored, so "is an AWS" or "is a Amazon" anywhere in the sentence rejects it
  (`Description.DegenerateAnywhere`).
- **Slots are filtered by length before stripping.** A middle name of a single space survives
  the filter and is stripped to "". When another part follows, joining leaves two spaces in the
  name, as in "AWS  Lake" (`NameComposer.EmptySpacedMiddleLeavesDoubleSpace`). When no suffix,
  acronym or purpose follows, the name ends in a single trailing space, as in "AWS "
  (`NameComposer.EmptySpacedMiddleAloneLeavesTrailingSpace`).
- **"No sentence" is an error.** When the sentence model returns no sentence, `len(None)` raises
  a `TypeError` (tweet.py:138), and the loop does not catch it (`Description.ServiceDesc`,
  outcome `Raised(NoneSentence)`).
- **Exhaustion posts "None".** When every attempt is rejected, `main` still posts, with the text
  "None" as the description. This is recorded under Findings.
- **Empty pools are errors.** An empty noun, verb, proper-noun or prefix pool makes the source
  raise, and the model reports it as a `Failure` result. Every candidate list is evaluated
  eagerly, so an empty pool raises even when the weighted draw would not have used it.

## Model

| member | source | states |
|---|---|---|
| Text.Lower | bots/aws_prodbot/src/tweet.py:101 | lower-casing keeps the length and maps each character through the ASCII lower-case map, after which no character is a capital |
| Text.TrimStart | bots/aws_prodbot/src/tweet.py:92 | the result is a suffix of the input, every removed character is whitespace, and it does not start with whitespace |
| Text.TrimEnd | bots/aws_prodbot/src/tweet.py:92 | the result is a prefix of the input, every removed character is whitespace, and it does not end with whitespace |
| Text.StripOfWord | bots/aws_prodbot/src/tweet.py:379 | stripping a whitespace-free word leaves it unchanged |
| Text.Split | bots/aws_prodbot/src/tweet.py:244 | every token of `str.split()` is a non-empty whitespace-free word |
| Text.SplitAroundSpace | bots/aws_prodbot/src/tweet.py:244 | splitting at a whitespace character gives the tokens of the left part followed by those of the right part |
| Text.StripKeepsTokens | bots/aws_prodbot/src/tweet.py:379 | stripping never changes the tokens of a string |
| Text.SplitJoin | bots/aws_prodbot/src/tweet.py:382 | the tokens of a space-joined list are the tokens of its elements, in order |
| Text.SplitJoinWords | bots/aws_prodbot/src/tweet.py:382 | joining whitespace-free words with spaces and splitting again gives the words back |
| Text.JoinWordsShape | bots/aws_prodbot/src/tweet.py:236 | a join of words has no leading, trailing or doubled whitespace, and contains whitespace exactly when there are two words or more |
| Text.CleanShape | bots/aws_prodbot/src/tweet.py:236-237 | `" ".join(n.split()).strip()` keeps the tokens, has single inner spaces only, and contains whitespace exactly when the input has two tokens or more |
| Text.Capitalize | bots/aws_prodbot/src/tweet.py:407-414 | `_capitalize` upper-cases the first character and leaves every other character and the length unchanged |
| Text.CapitalizeIdempotent | bots/aws_prodbot/src/tweet.py:407-414 | capitalising twice is the same as capitalising once |
| Text.Title | bots/aws_prodbot/src/tweet.py:340-342 | `str.title()` keeps the length, and a character is a capital afterwards exactly when it is a letter that does not follow a letter |
| Text.Decimal | bots/aws_prodbot/src/tweet.py:178 | a count is formatted as a non-empty string of digits |
| Text.ParseDecimalOfDecimal | bots/aws_prodbot/src/tweet.py:178 | reading the formatted count back gives the count |
| TagIndex.InsertReads | bots/aws_prodbot/src/tweet.py:84-92 | one loop step changes only the list of the pair's own tag, by the skip-or-append rule |
| TagIndex.StripAll | bots/aws_prodbot/src/tweet.py:92 | every word is stripped, order and length kept |
| TagIndex.NonBrand | bots/aws_prodbot/src/tweet.py:87-88 | exactly the words other than "amazon" and "aws" remain |
| TagIndex.IndexIsBucketPerTag | bots/aws_prodbot/src/tweet.py:76-94 | the fold over all pairs gives each tag the same list as a fold over that tag's words alone |
| TagIndex.BucketIsSubsequence | bots/aws_prodbot/src/tweet.py:84-92 | a tag's list is a subsequence of the stripped words seen with the tag, in input order |
| TagIndex.BucketIsDedup | bots/aws_prodbot/src/tweet.py:84-92 | on whitespace-free words the fold is first-occurrence de-duplication of the non-brand words |
| TagIndex.TagIndexContents | bots/aws_prodbot/src/tweet.py:76-94 | for whitespace-free tagger output each tag's list has no duplicates and holds exactly the non-brand words seen with the tag, in first-seen order |
| TagIndex.PaddedWordStoredTwice | bots/aws_prodbot/src/tweet.py:89-92 | a word with a trailing space seen twice is stored twice, as "x" and "x" |
| TagIndex.CapitalisedBrandKept | bots/aws_prodbot/src/tweet.py:87-88 | "aws" is skipped but "AWS" is stored |
| Acronym.Capitals | bots/aws_prodbot/src/tweet.py:161 | `re.findall("[A-Z]")` returns only capitals, no more of them than the name has characters |
| Acronym.CapitalsIsFilter | bots/aws_prodbot/src/tweet.py:161 | the capitals are a subsequence of the name holding every capital of the name as often as the name does, and nothing else |
| Acronym.CapitalsAppend | bots/aws_prodbot/src/tweet.py:161 | the capitals of a concatenation are the capitals of each part, in order |
| Acronym.RunLength | bots/aws_prodbot/src/tweet.py:171 | `groupby` splits the capitals into maximal runs of one letter that expand back to the capitals |
| Acronym.MaximalRunsUnique | bots/aws_prodbot/src/tweet.py:171 | two lists of maximal runs that expand to the same letters are equal, so the `groupby` runs are the only maximal grouping |
| Acronym.DecodeEncode | bots/aws_prodbot/src/tweet.py:178-182 | the "letter, then count when above one" encoding of non-digit runs decodes back to the runs |
| Acronym.DecodeEncodeRun | bots/aws_prodbot/src/tweet.py:178-182 | reading an encoded run back from the front gives the run and leaves the rest, when the rest does not start with a digit |
| Acronym.EncodeAtLeastRuns | bots/aws_prodbot/src/tweet.py:178-182 | the encoding is at least as long as the number of runs |
| Acronym.EncodeChars | bots/aws_prodbot/src/tweet.py:178-182 | an encoding of capital runs contains only capitals and digits |
| Acronym.ServiceAcronym | bots/aws_prodbot/src/tweet.py:156-188 | no acronym for two capitals or fewer; any acronym has 2 to 4 characters of capitals and digits, is the encoding of the maximal runs of the name's capitals, and spells out exactly those capitals |
| Acronym.AcronymRuns | bots/aws_prodbot/src/tweet.py:167-182 | a non-empty acronym decodes to the `groupby` runs of the name's capitals |
| Acronym.AcronymRejectsOnlyLongEncodings | bots/aws_prodbot/src/tweet.py:163-188 | with three capitals or more, the acronym is empty exactly when the encoding is longer than four characters |
| Acronym.RunLengthOfTTA | bots/aws_prodbot/src/tweet.py:169-171 | `groupby` turns the capitals T, T, A into the runs (T, 2) and (A, 1) |
| Acronym.RunsOfTTA | bots/aws_prodbot/src/tweet.py:169-182 | the capitals T, T, A encode as "T2A" |
| Acronym.RunLengthExample | bots/aws_prodbot/src/tweet.py:167-188 | a name whose capitals are "TTA" gets the acronym "T2A" |
| Acronym.TripleRunExample | bots/aws_prodbot/src/tweet.py:171-188 | a name whose capitals are "TTT" gets the acronym "T3" |
| Frequency.MaxIndex | bots/aws_prodbot/src/tweet.py:256-257 | picks a candidate whose count is the highest |
| Frequency.TopK | bots/aws_prodbot/src/tweet.py:263-264 | min(k, n) distinct candidates, counts non-increasing, no left-out candidate counting more than a kept one, and ties in candidate order |
| Frequency.MostCommon | bots/aws_prodbot/src/tweet.py:256-264 | `most_common(k)` keeps min(k, number of distinct entries) distinct pool entries in non-increasing count order, none left out more frequent than a kept one, and entries of equal count in first-seen order, both inside the list and at the cut-off; empty only for an empty pool or k = 0 |
| Frequency.MostCommonOfUnique | bots/aws_prodbot/src/tweet.py:256-264 | these properties leave exactly one answer for each pool and k |
| Frequency.MostCommonFirstIsMax | bots/aws_prodbot/src/tweet.py:256-264 | the first kept entry is a most frequent entry of the pool |
| Frequency.MostCommonKeepsAll | bots/aws_prodbot/src/tweet.py:256-264 | when k is at least the number of distinct entries, exactly the pool's entries are kept |
| NameMining.BrandMatchMeaning | bots/aws_prodbot/src/tweet.py:222 | a match of `(AWS.)|(Amazon.)` at a position takes 4 characters exactly when "AWS" and a non-newline character follow, 7 exactly when "Amazon" and a non-newline character follow, and none otherwise |
| NameMining.StripBrands | bots/aws_prodbot/src/tweet.py:222 | removing brand matches never lengthens a name |
| NameMining.StripBrandsAtSpace | bots/aws_prodbot/src/tweet.py:222 | no brand match crosses a space, so the text after a space is cleaned independently |
| NameMining.TrailingBrandKept | bots/aws_prodbot/src/tweet.py:220-222 | a trailing "AWS" or "Amazon" (as in "... for AWS") is kept, because nothing follows it |
| NameMining.NoMatchKept | bots/aws_prodbot/src/tweet.py:222 | a first character that starts no "AWS" or "Amazon" plus a non-newline character (as in "Apple Pay", or "AWS" before a newline) is kept, and the scan resumes after it |
| NameMining.LeadingBrandRemoved | bots/aws_prodbot/src/tweet.py:222 | "AWS" or "Amazon" with any next character other than a newline is removed together with that character, and the rest is cleaned as if alone |
| NameMining.BrandFreePrefixKept | bots/aws_prodbot/src/tweet.py:222 | text without an 'A' is kept as it is in front of the cleaned rest |
| NameMining.NoBrandUnchanged | bots/aws_prodbot/src/tweet.py:222 | a name without "AWS" or "Amazon" is unchanged |
| NameMining.CloseFrom | bots/aws_prodbot/src/tweet.py:226 | finds the first ')' at or after a position, or the end |
| NameMining.ParenMatchMeaning | bots/aws_prodbot/src/tweet.py:226 | ` ?\([^)]+\)` matches at a position exactly when an optional space, '(', a character other than ')' and a later ')' follow; the match runs to the first ')' after the opening one |
| NameMining.CloseIsFirst | bots/aws_prodbot/src/tweet.py:226 | the scan for ')' stops before the end exactly when a ')' occurs at or after the position |
| NameMining.StripParens | bots/aws_prodbot/src/tweet.py:224-226 | the result is no longer than the name, uses only its characters, and contains no parenthesised group left to remove |
| NameMining.ParenFreePrefixKept | bots/aws_prodbot/src/tweet.py:226 | text without '(' is kept as it is in front of the cleaned rest, unless its trailing space starts a group |
| NameMining.GroupThenRestRemoved | bots/aws_prodbot/src/tweet.py:224-226 | "(X)" or " (X)" at the front, for X non-empty without ')', is removed and the rest is cleaned as if alone |
| NameMining.NoParenUnchanged | bots/aws_prodbot/src/tweet.py:226 | a name without '(' is unchanged |
| NameMining.GroupRemoved | bots/aws_prodbot/src/tweet.py:224-226 | " (X)" on its own disappears entirely |
| NameMining.TrailingGroupRemoved | bots/aws_prodbot/src/tweet.py:224-226 | "Name (SNS)" becomes "Name" |
| NameMining.SplitCamelIsSpaceBeforeBoundaries | bots/aws_prodbot/src/tweet.py:228-233 | the substitution inserts a space before exactly those capitals that are followed by a character other than a capital, whitespace or 's' |
| NameMining.SplitCamelOnlyAddsSpaces | bots/aws_prodbot/src/tweet.py:233 | the substitution only adds spaces: the non-space characters are unchanged |
| NameMining.NoCapitalPrefixKept | bots/aws_prodbot/src/tweet.py:228-233 | text without capitals is kept as it is in front of the split rest |
| NameMining.SplitAtBoundary | bots/aws_prodbot/src/tweet.py:228-233 | a capital followed by a lower-case letter other than 's' gets a space in front |
| NameMining.CamelWordSplit | bots/aws_prodbot/src/tweet.py:228-233 | a capitalised word gets one space in front and is otherwise kept, whatever follows it |
| NameMining.CamelWordsSplit | bots/aws_prodbot/src/tweet.py:228-229 | two capitalised words run together, as in "CloudWatch", become " Cloud Watch" |
| NameMining.UpperRunUnsplit | bots/aws_prodbot/src/tweet.py:230-231 | "EKS" and "SDKs" are not split |
| NameMining.SplitCountIsWordStarts | bots/aws_prodbot/src/tweet.py:243-244 | the number of tokens is the number of word starts |
| NameMining.SplitCamelKeepsMultiToken | bots/aws_prodbot/src/tweet.py:232-251 | splitting camel case never reduces the number of tokens |
| NameMining.FirstToken | bots/aws_prodbot/src/tweet.py:243-245 | a name with inner whitespace contributes its first token, any other name nothing |
| NameMining.LastToken | bots/aws_prodbot/src/tweet.py:243-246 | a name with inner whitespace contributes its last token, any other name nothing |
| NameMining.FirstTokens | bots/aws_prodbot/src/tweet.py:242-251 | the collected first tokens are empty exactly when no name has two tokens |
| NameMining.LastTokens | bots/aws_prodbot/src/tweet.py:242-246 | the collected last tokens are empty exactly when no name has two tokens |
| NameMining.PoolsEmptyTogether | bots/aws_prodbot/src/tweet.py:239-251 | the prefix pool is empty exactly when the suffix pool is |
| NameMining.MineNames | bots/aws_prodbot/src/tweet.py:239-267 | fails (at the prefix unpacking) exactly when no normalised name has two tokens; otherwise both top lists are non-empty and are the `most_common(14)` of the prefix pool and the `most_common(13)` of the suffix pool, with all that `Frequency.MostCommon` promises |
| NameComposer.Filter | bots/aws_prodbot/src/tweet.py:205-216 | a list comprehension with a condition keeps exactly the words that pass it |
| NameComposer.Nouns | bots/aws_prodbot/src/tweet.py:200-209 | the common nouns are exactly the NN words longer than two characters made of letters, digits and dashes |
| NameComposer.ProperNouns | bots/aws_prodbot/src/tweet.py:201-206 | the proper nouns are exactly the NNP words longer than two characters |
| NameComposer.Verbs | bots/aws_prodbot/src/tweet.py:213-216 | the verbs are exactly the VB words longer than two characters |
| NameComposer.NounWithTrailingNewlineKept | bots/aws_prodbot/src/tweet.py:209 | `$` also matches before a final newline, so "lake\n" passes the noun filter |
| NameComposer.Pick | bots/aws_prodbot/src/tweet.py:285 | `random.choice` returns an element of its list |
| NameComposer.BrandIsWord | bots/aws_prodbot/src/tweet.py:285 | either brand is a single whitespace-free token |
| NameComposer.Chars | bots/aws_prodbot/src/tweet.py:337-344 | iterating over a string gives its characters one by one |
| NameComposer.ComposeSlots | bots/aws_prodbot/src/tweet.py:282-365 | every slot holds "" or a value its candidate list allows: a brand, a top prefix, a noun or verb, a top suffix, the acronym of the slots, "for " and a proper noun |
| NameComposer.PickOfPicks | bots/aws_prodbot/src/tweet.py:290 | every element of a list can be drawn |
| NameComposer.EverySlotsReachable | bots/aws_prodbot/src/tweet.py:282-365 | every slot assignment the candidate lists allow is produced by some draw |
| NameComposer.CleanPartsKeepsTokens | bots/aws_prodbot/src/tweet.py:378-379 | dropping empty parts and stripping the others keeps the tokens |
| NameComposer.CleanJoinTokens | bots/aws_prodbot/src/tweet.py:378-382 | the tokens of the joined name are the tokens of the raw slots, in order |
| NameComposer.NameTokens | bots/aws_prodbot/src/tweet.py:367-382 | the name's tokens are those of brand, prefix, middle name, suffix, parenthesised acronym and purpose, in that order |
| NameComposer.NameStartsWithBrand | bots/aws_prodbot/src/tweet.py:368-382 | the name starts with its brand, followed by the end or a space, and its first token is the brand |
| NameComposer.AbbrevEmptyIff | bots/aws_prodbot/src/tweet.py:387-399 | the abbreviation is empty exactly when there is no acronym |
| NameComposer.AbbrevTokens | bots/aws_prodbot/src/tweet.py:387-399 | with an acronym, the abbreviation's tokens are brand, acronym, then the purpose's tokens |
| NameComposer.CleanPartsOfSpacedMiddle | bots/aws_prodbot/src/tweet.py:378-379 | for a brand and a suffix word, the parts brand, "", " ", suffix, "" clean to brand, "", suffix: the one-space part passes the length test and becomes an empty part |
| NameComposer.EmptySpacedMiddleLeavesDoubleSpace | bots/aws_prodbot/src/tweet.py:317-382 | two empty middle words in the spaced style leave two spaces between the brand and the suffix, as in "AWS  Lake" |
| NameComposer.EmptySpacedMiddleAloneLeavesTrailingSpace | bots/aws_prodbot/src/tweet.py:317-382 | two empty middle words in the spaced style with nothing after them leave the name with a single trailing space, as in "AWS " |
| NameComposer.CapitalsOfSpacedChars | bots/aws_prodbot/src/tweet.py:337-344 | putting spaces between the characters does not change the capitals |
| NameComposer.AcronymSourceCapitals | bots/aws_prodbot/src/tweet.py:337-347 | the acronym counts the capitals of the title-cased prefix, of the title-cased middle words and of the suffix as written |
| NameComposer.TitleWordCapitals | bots/aws_prodbot/src/tweet.py:338-342 | a title-cased word of letters has exactly one capital, its first letter (so "IoT" counts once) |
| NameComposer.TitleTwoWordsCapitals | bots/aws_prodbot/src/tweet.py:341-342 | two title-cased middle words contribute exactly their two initials |
| NameComposer.ServiceName | bots/aws_prodbot/src/tweet.py:191-404 | fails with the mining error, or, after a successful mining, exactly when a vocabulary is empty, reporting nouns, verbs, proper nouns in that order; on success both strings come from one slot assignment the lists allow |
| NameComposer.NamedShape | bots/aws_prodbot/src/tweet.py:367-399 | the name starts with "AWS" or "Amazon", and the abbreviation is empty or has the same first token and at least two tokens |
| NameComposer.DrawnAcronymHasNoSpace | bots/aws_prodbot/src/tweet.py:345-353 | a drawn acronym contains no whitespace |
| NameComposer.ServiceNameShape | bots/aws_prodbot/src/tweet.py:367-404 | every name `service_name` returns starts with "AWS" or "Amazon", and the abbreviation is empty or starts with the same brand token |
| Description.StartExpression | bots/aws_prodbot/src/tweet.py:97-103 | the seed is "is a", "is an" or a lower-cased verb from the list, and it fails exactly when the verb list is empty |
| Description.StartExpressionReachesAll | bots/aws_prodbot/src/tweet.py:101-103 | both fixed phrases and every lower-cased verb can be drawn |
| Description.OccursAppend | bots/aws_prodbot/src/tweet.py:143 | a pattern found in a suffix is found in the whole string |
| Description.DegenerateAnywhere | bots/aws_prodbot/src/tweet.py:143 | a sentence holding "is an AWS" or "is a Amazon" anywhere is rejected |
| Description.ServiceDesc | bots/aws_prodbot/src/tweet.py:118-153 | returns the first sentence that is shorter than the budget and not degenerate, after only rejected attempts; raises before any call on an empty verb list; raises when the model returns no sentence; is exhausted exactly when all 100 attempts are rejected |
| Description.StopIsNotRejected | bots/aws_prodbot/src/tweet.py:131-151 | an attempt at which the loop stops is not a rejection, so no later attempt count is all rejections |
| Description.StopsAtUnique | bots/aws_prodbot/src/tweet.py:131-151 | the loop can stop at only one attempt, with only one outcome |
| Description.DescribesAttemptsUnique | bots/aws_prodbot/src/tweet.py:118-153 | the description of the attempts determines the outcome: two outcomes that both fit it are equal |
| Prototype.PrototypeStart | app.py:42-45 | the prototype's seed is "is a", "is an" or a verb as tagged, and it fails exactly when the verb list is empty |
| Prototype.SeedsDifferByLowerCase | app.py:43 | the prototype's and the bot's seed phrases agree except that the bot lower-cases the verb |
| Prototype.Counter | app.py:71-73 | the printed attempt numbers are 0, 1, ... in decimal |
| Prototype.Markov | app.py:60-85 | prints two empty lines, then the attempt number before each attempt; it stops after the first attempt that does not raise and prints its sentence or "None"; it raises right after "0" on an empty verb list; it gives up after 100 parameter errors |
| Toot.CorpusTokens | bots/aws_prodbot/src/tweet.py:454-457 | the corpus holds the tokens of every blurb, then of every description |
| Toot.TootIntro | bots/aws_prodbot/src/tweet.py:417-426 | the intro is "Introducing ", the name, "™", a blank line and the abbreviation (or the name when there is none), readable back at fixed positions |
| Toot.PostAsWritten | bots/aws_prodbot/src/tweet.py:477-480 | as written, a post is made unless the generator raises, and it always starts with the intro and a space |
| Toot.ExhaustedPostsNone | bots/aws_prodbot/src/tweet.py:477-480 | as written, an exhausted generator posts the intro followed by " None", over the limit when the intro is longer than 495 characters |
| Toot.Post | bots/aws_prodbot/src/tweet.py:477-480 | corrected: a post is made exactly when a description is accepted, and exhaustion reports that there is no description |
| Toot.PostFitsLimit | bots/aws_prodbot/src/tweet.py:473-480 | a description within the budget gives a post of at most 500 characters |
| Toot.PostShape | bots/aws_prodbot/src/tweet.py:418 | a post for a branded name starts with "Introducing AWS" or "Introducing Amazon" |
| Toot.Publish | bots/aws_prodbot/src/tweet.py:450-480 | corrected: nothing is posted when naming fails; the description generator gets the corpus, the VBZ words and the budget 500 minus the intro length, and its outcome fits the attempts as `Description.ServiceDesc` states; a post is made exactly when a description is accepted, is at most 500 characters, starts with "Introducing AWS" or "Introducing Amazon", and is the intro, a space and the accepted sentence |

## Left out

- Loading the items file, building the Mastodon client, sending the post, logging, the
  `DISABLE_TOOT` and credential environment variables, and the print of the top lists
  (tweet.py:269-270): these are I/O. `main` returns the post instead of sending it.
- The nltk tokenizer and tagger (`nltk_tags`) are a parameter `tagger: string -> seq<Tagged>`.
- markovify is a parameter `model(corpus, seed, attempt)`. The model's `state_size`, `strict`
  and `min_words` arguments are therefore not modelled. Neither is the `POSifiedText` class:
  tweet.py defines it but does not use it, and the prototype's `markov` builds it (app.py:61)
  only to draw sentences, which the `model` parameter stands for.
- The weights of every weighted draw (40/20/40, 10/50, 10/70/20, 10/20/70, 60/40, 10/90, 90/10)
  are left out: the model covers every outcome of every draw, not their probabilities.
- Toot.Publish: exhaustion posts nothing here. `main` as written posts the intro followed by
  " None" (`Toot.ExhaustedPostsNone`). This is the corrected ending recorded under Findings.
- TagIndex.TagIndexContents: distinctness and exact contents are proved only for tagger words
  without surrounding whitespace. Other words can be stored twice
  (`TagIndex.PaddedWordStoredTwice`).
- Text.Lower: character classes, case mapping and whitespace are ASCII only. `str.lower`,
  `str.title`, `str.split` and `str.strip` on non-ASCII text are not modelled. ASCII
  whitespace here includes the separators `\x1c`–`\x1f`, as Python's does.
- The single-iteration `for _ in range(1)` loop around naming and description in `main` is
  modelled as straight-line code.
- `update_mastodon_bio` (an empty function), the `__main__` blocks of both files, and the
  scraping script `get.py` are not part of this model.

## Findings

| source | as written | input that shows it | evidently intended | confidence | as-written member | corrected member |
|---|---|---|---|---|---|---|
| bots/aws_prodbot/src/tweet.py:477-480 | `service_desc` returns `None` when all 100 attempts are rejected; `main` still sends `f"{intro} {desc}"`, i.e. the intro followed by " None" | a sentence model that raises `ParamError` on every attempt (or only produces over-long sentences); with an intro longer than 495 characters the post also exceeds the 500-character limit | no post when no description was accepted: a failed generation aborts publishing | not executed | Toot.ExhaustedPostsNone | Toot.Post |
