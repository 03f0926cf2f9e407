# Verified models of a voice dictation daemon

These Dafny modules model the parts of the daemon whose behaviour is pure or self-contained, and prove what they do for all inputs, all runs and all chunkings. `dafny verify dfyconfig.toml` checks the whole project; `dafny verify --resource-limit 2000000 --verification-time-limit 0 --warn-contradictory-assumptions dfyconfig.toml` does so within a fixed budget for each member and with no warning.

| module | models |
|---|---|
| `FoldReplace`, `CollapseSpaces` | case-insensitive replacement through a lower-cased copy, the second search written differently, tidying after a deletion |
| `SpokenGrammar` | the spoken command grammar: tokens, scopes, the ten rules, the literal verbs, recursion through a scoped prefix |
| `SpokenRules`, `SpokenMeanings` | which rule answers, by the words said; what the words of a command come to: the unit, the mark, the pair, the case and the style chosen |
| `SpokenScope`, `SpokenMarks`, `SpokenCounts`, `SpokenOperands` | when a command is refused and when it reaches all of the text; where a mark is placed; when a count is heeded; what a replacement inserts |
| `Fuzzy`, `Vocabulary`, `AppRegistry` | edit distance, consonant codes, suggestions; vocabulary correction; resolving a spoken application name |
| `Segmenter`, `Resampler`, `Ring` | the audio path: utterance detection, streaming resampling, the drop-oldest ring |
| `ModelFetch` | the resumable, verified download as a crash-prone step machine |
| `Profiles`, `Settings`, `Documents`, `Layers` | profile selection and static overlap warnings; the checks of a configuration document; what a document says of a key, by the keys that lead to it; layered configuration with provenance |
| `ReplayText`, `Replay`, `ReplayReading`, `ReplayRoundTrip`, `EditWindow` | the session record: printer, parser, what any text is read as, the round trip; the edit window and its consistency check |
| `PngUnfilter` | in-place decoding of filtered PNG rows |
| `Common`, `Text`, `Trimming` | options and case folding; white space, words, substrings and bytes; what trimming leaves |

Conventions. A string is a sequence of code points. Offsets and lengths count them where only their order matters; where the programs compare or slice by bytes and lower-casing may change a size, in the operands of spoken commands and the patterns of profiles, UTF-8 sizes are counted. Lower-casing is any map from characters to non-empty strings, applied character by character; a theorem that needs more of it says so. Samples, rates and scores are exact reals. The speech detector is an arbitrary state machine, the hash an arbitrary function, the server whatever its replies say. Objects with changing fields are classes; loops are methods proved against a specification.

## What was found

Where the code does not do what its documentation says, the model follows the code, and a theorem says exactly when the two agree.

- `fuzzy::closest` says it accepts less than half the input length. All candidates it accepts are that near exactly for inputs of length 5 or at least 7; for "ab" it offers "xy".
- The grammar says that a command naming a unit it does not resolve is refused. It reaches the whole target exactly when the rule for lists answers first ("split the first line into sentences"), or no position word but "this" and "that" is said and the rule for marks (placing one at the end), wrapping or identifiers answers first, or none does and a literal verb reads it: "wrap this word in quotes", "wrap the sixth word in quotes", "uppercase the sixth char".
- A scoped prefix whose words and tokens do not line up is to be refused. It is passed on exactly when their numbers differ, and the rules for identifiers, lists and case then read the whole utterance: "in this word , slug" makes everything a slug.
- A placement that cannot be computed is to be refused and not made the end. The end is taken exactly when none of five words, no "after" and no position beside a unit is said: "add a comma at the start" puts it at the end.
- A command with a count is to be refused as a whole. "split this into <n> lines" is, exactly when n is "two" to "ten" or a numeral of one or two digits: "split this into eleven lines" splits into sentences. Such a count keeps the rule for lists from splitting, and no more. The command is refused exactly when, besides, the first rule that answers has a guard against it, or none answers and it has no verb and no case word for the literal verbs: "join these two lines" joins all there are, "split this into two uppercase lines" makes everything upper-case, "split this into two lines as a slug" makes it a slug.
- "upper camel case" never selects Pascal case: it selects a snake style if one is named beside it, and camel case otherwise, as in "make it upper camel case".
- A replacement has the operands that were said exactly when lower-casing keeps the size of the utterance and the first operand gains no bytes, or one that a space beside the joiner makes up for. When the utterance shrinks, the whole lower-cased command is inserted ("change K to x" with a Kelvin sign). When it grows by d bytes, the second operand loses its last d bytes ("change İ to abc" inserts "ab"); if these are not whole characters of it, the whole command is inserted ("change İ to abé"), and if nothing is left, nothing is replaced ("change İ to x").
- `fetch` cannot finish from a complete partial file if the server honours ranges. The marker is also written for unpinned models and does not record the pin, so a pin added later is not checked. `verify_cached` accepts a missing file of a pinned model exactly when there is a marker.
- The guarantee of `fetch` is for one process at a time: two can mark an empty file as verified, and of two that resume one partial file the second writes on into the file that the first has verified and renamed. A marker stays truthful in every interleaving in which neither opens or writes the partial file between the other's hash and rename, nor writes to it after the rename. An Ok means a verified file when, besides, neither removes or replaces the final file while the other relies on it; a verdict on an old file can remove a new one. Calls that do not overlap meet both conditions.
- An overlap warning compares lower-cased lengths and `select` compares written ones, in bytes. They agree exactly when lower-casing leaves the comparison alone, as it does if every character keeps its size; a dotted capital I and a Kelvin sign do not.
- Fuzzy correction says its reassembly is lossless. When nothing is corrected, the text comes back exactly if there is no term to correct towards or its only white space is single spaces between words; any term turns a line break into a space.
- The edit window documents `(0, 0, 0)` for identical texts. It is `(n, 0, 0)` for a text of n characters, so the two agree exactly for the empty one.
- The replay consistency check says that a record it accepts comes from an edit. It also accepts a window of nothing before the end, and with wrapping arithmetic a window that wraps around; with checked arithmetic it can overflow before it has looked at the window.
- Deleting a phrase also tidies white space far from it, exactly when a kept piece has some to tidy away from the cuts: "a  b c" without "c" is "a b".

## Model

| member | source | states |
|---|---|---|
| `FoldReplace.ReplaceCaseInsensitive` | crates/edit-intent/src/lib.rs:346-400 | under any lower-casing that may turn one character into several: no answer exactly for an empty or absent search text; otherwise what is replaced are occurrences between original characters, in order and apart, every occurrence starts inside one, the replacement stands in the place of each, and every other character stands where it did, moved by the growth of what was replaced before it |
| `FoldReplace.LowerWithOrigins` | crates/edit-intent/src/lib.rs:350-364 | the lower-cased copy together with a table that sends each of its characters to the original character it came from |
| `FoldReplace.BoundaryIffOffset` | crates/edit-intent/src/lib.rs:366-384 | a place in the copy is a boundary by the table exactly when it is where an original character begins |
| `FoldReplace.RegionsInOrder` | crates/edit-intent/src/lib.rs:366-392 | the rewritten regions are non-empty, disjoint and in order |
| `FoldReplace.RegionsOccur` | crates/edit-intent/src/lib.rs:366-392 | every rewritten region folds to the folded search text |
| `FoldReplace.EveryOccurrenceMeetsARegion` | crates/edit-intent/src/lib.rs:366-392 | no occurrence is left untouched: each one overlaps a rewritten region |
| `FoldReplace.NoneIffAbsent` | crates/edit-intent/src/lib.rs:346-349 | no answer is given exactly when the search text is empty or occurs nowhere between original characters |
| `FoldReplace.FindFoldInsensitive` | crates/edit-intent/src/apply.rs:126-148 | the differently written second search succeeds exactly when the first does, and returns the end of the first region the first would rewrite: an occurrence before which none starts |
| `CollapseSpaces.CollapseSpaces` | crates/edit-intent/src/lib.rs:402-416 | the loop with its "last was a space" flag leaves single spaces, and none before a comma or full stop or at the ends |
| `CollapseSpaces.CollapseIsProjection` | crates/edit-intent/src/lib.rs:402-416 | the result is canonical, canonical texts are the only ones left alone, and tidying twice is tidying once |
| `CollapseSpaces.CollapseLeaves` | crates/edit-intent/src/lib.rs:402-416 | what is taken away is given character by character: it is all white space, and everything else stays, in order |
| `CollapseSpaces.CanonicalIff` | crates/edit-intent/src/lib.rs:402-416 | a text is canonical exactly when none of its characters is taken away |
| `CollapseSpaces.DeleteIsLocalIff` | crates/edit-intent/src/lib.rs:314-318 | a deletion changes nothing but its matches and the white space beside them exactly when the pieces of the target between them have nothing to tidy elsewhere, in particular when the target is canonical |
| `CollapseSpaces.FarSpacesGo` | crates/edit-intent/src/lib.rs:314-318 | the finding: "a  b c" without "c" also loses a space after the a |
| `SpokenGrammar.OnlyScope` | crates/edit-intent/src/parse.rs:123-138 | the scan that skips past each match finds the scope exactly when one ordinal stands directly before a unit |
| `SpokenGrammar.OnlyMarkOf` | crates/edit-intent/src/parse.rs:163-177 | one mark is reported exactly when every name found, matches blanked as they are found, means that mark |
| `SpokenGrammar.NamedIsFound` | crates/edit-intent/src/parse.rs:250-263 | a text that names a mark has one found in it, so no answer means two different marks |
| `SpokenGrammar.TailOfOriginal` | crates/edit-intent/src/parse.rs:361-367 | the inner command splits into exactly the last words said, which is what makes the recursion through the scoped prefix end |
| `SpokenGrammar.NeverSilentlyWidened` | crates/edit-intent/src/parse.rs:147-153 | an utterance with a position word and a unit word never yields Replace, Delete, Append, Recase, Wrap, Identifier, a mark at the end or the deletion of everything |
| `SpokenScope.ReachesAllIff` | crates/edit-intent/src/parse.rs:202-235 | a command that names a unit acts on the whole target, or deletes it, exactly when the rule for lists answers first; or it has no position word but "this" and "that", and the first rule that answers is the one for marks, placing it at the end, for wrapping or for identifiers, or none answers and it has a verb with its joiner and operands, a head with an operand, or a case word |
| `SpokenScope.RefusedIff` | crates/edit-intent/src/parse.rs:202-235 | any utterance is refused exactly when the first rule that answers has a guard against it (more words after a scope to delete, a placement or anchor that cannot be computed, a position beside a unit, no single scope or no case for it, a scoped prefix before nothing or before what is itself refused), or none answers and it has nothing that a literal verb reads |
| `SpokenRules.FirstToClaim` | crates/edit-intent/src/parse.rs:202-235 | which of the nine rules after undo and prefix answers: the first, in the order of the source, that claims the words; for each rule the words it claims |
| `SpokenRules.MentionsIff` | crates/edit-intent/src/parse.rs:147-153 | position and unit are mentioned exactly when some word is a unit and some word is a position other than "this" and "that" |
| `SpokenRules.PlacementIff` | crates/edit-intent/src/parse.rs:423-430 | the five placements that cannot be computed |
| `SpokenRules.FoundStands` | crates/edit-intent/src/parse.rs:163-177 | every mark found is named in the text itself, except perhaps under a name with a space: blanking joins no letters |
| `SpokenMeanings.TokensAre` | crates/edit-intent/src/parse.rs:76-85 | the rules see the lower-cased words in order, each without the marks before and after it, and none that is nothing but marks |
| `SpokenMeanings.DeleteScopeIff` | crates/edit-intent/src/parse.rs:370-403 | for every utterance: a unit is deleted exactly when one of five heads is followed by its position and it, with or without "the", and by nothing more; everything exactly when the head is followed by one of four phrases |
| `SpokenMeanings.UndoIff` | crates/edit-intent/src/parse.rs:301-315 | one edit is undone exactly by seven phrases, all by four |
| `SpokenMeanings.DeleteMarkIff` | crates/edit-intent/src/parse.rs:471-483 | a mark is deleted exactly when one of three heads is followed by its position, which stands before no unit, and by words that name that mark and no other |
| `SpokenMeanings.MarkAfterIff` | crates/edit-intent/src/parse.rs:406-465 | a mark is placed after a text exactly when one of six verbs begins the utterance, it names that mark and no other and none of five placements, and the words after the first "after", without "the" or "the word", are that text and no place |
| `SpokenMeanings.OnlyMarkIsNamed` | crates/edit-intent/src/parse.rs:163-177 | a mark that is found is named by one of its own names |
| `SpokenMeanings.WrapIff` | crates/edit-intent/src/parse.rs:485-521 | everything is wrapped in a pair exactly when one of four verbs begins the utterance, it says in what, has no position beside a unit, and the pair is the first of the table that it names |
| `SpokenMeanings.StyledIff` | crates/edit-intent/src/parse.rs:523-582 | an identifier style or an operation on lists is given exactly when its rule answers first and that style or operation is the first of its table that is named |
| `SpokenMeanings.ScopedCaseIff` | crates/edit-intent/src/parse.rs:586-628 | where the rule for changes of case answers, the unit is the only one that a position stands before, and the case the first that is named, or title case for a word or character to be capitalised |
| `SpokenMeanings.RecaseIff` | crates/edit-intent/src/lib.rs:249-280 | the case of everything is changed exactly when no rule answers, no literal verb finds operands, and that case is the first that is named |
| `SpokenMeanings.PrefixedIs` | crates/edit-intent/src/parse.rs:320-342 | a scope before a command gives the command, as the remaining words say it, that scope; what is refused or scoped itself is refused |
| `SpokenScope.WrapWidensIff` | crates/edit-intent/src/parse.rs:485-521 | for any words in between that name a unit, "wrap ... in quotes" is refused exactly when one is a position word but "this" and "that", and otherwise wraps everything |
| `SpokenScope.ThisWidens` | crates/edit-intent/src/parse.rs:147-153 | the finding: for every unit word, "wrap this <unit> in quotes" names that scope and wraps the whole target |
| `SpokenScope.SixthWidens` | crates/edit-intent/src/parse.rs:38-52 | the finding: so does "wrap the sixth <unit> in quotes" |
| `SpokenScope.SixthShouts` | crates/edit-intent/src/lib.rs:249-280 | the finding: "uppercase the sixth char" makes everything upper-case |
| `SpokenScope.ListIgnoresScope` | crates/edit-intent/src/parse.rs:549-582 | the finding: "split the first line into sentences" names one scope and splits everything |
| `SpokenScope.PrefixPassedOnIff` | crates/edit-intent/src/parse.rs:320-342 | a scoped prefix with something after it is passed on to the later rules exactly when words and tokens differ in number |
| `SpokenScope.MisalignedIsMisread` | crates/edit-intent/src/parse.rs:349-367 | what it then becomes: an identifier, a list or a change of case of the whole utterance, or nothing |
| `SpokenScope.MisalignedRefusedIff` | crates/edit-intent/src/parse.rs:349-367 | it is refused, as documented, exactly when none of those rules knows a word in it, or a position beside a unit stops the one that does |
| `SpokenScope.StrayCommaWidens` | crates/edit-intent/src/parse.rs:349-367 | the finding: "in this word , slug" makes everything a slug |
| `SpokenGrammar.LiteralOnlyIf` | crates/edit-intent/src/lib.rs:188-259 | the greedy literal verbs are reached only without a single named scope, without position and unit together, without a mark named after a command word and without an ordinal occurrence |
| `SpokenMarks.MarkAtEndIff` | crates/edit-intent/src/parse.rs:406-465 | a mark is placed at the end exactly when the utterance begins with one of six verbs, names that mark and no other, and has none of five placements, no "after" and no position beside a unit |
| `SpokenMarks.AnyPlaceIsTheEnd` | crates/edit-intent/src/parse.rs:423-430 | the finding: every other place is the end, for any word that is no placement and shares no letter with another mark |
| `SpokenMarks.StartIsTheEnd` | crates/edit-intent/src/parse.rs:423-430 | the finding: "add a comma at the start" puts it at the end |
| `SpokenCounts.CountedIsNotSplit` | crates/edit-intent/src/parse.rs:549-582 | nothing is split or listed when a number from two to ten or of one or two digits is said; joining and the other rules are not stopped by it, see the next row |
| `SpokenCounts.CountedRefusedIff` | crates/edit-intent/src/parse.rs:549-582 | of a command with such a count that the rule for lists would read: it is refused exactly when the first rule that answers has a guard against it, or none answers and it has no verb, joiner, operand or case word; where the rule for lists still answers, lines are joined |
| `SpokenCounts.CountedParses` | crates/edit-intent/src/parse.rs:549-582 | after "split", with a count and without style, scope, position or guard for joining, the command is refused unless a case word makes it a change of case |
| `SpokenCounts.CountsAreRefused` | crates/edit-intent/src/parse.rs:64-74 | "split this into <n> lines" is refused for every such n |
| `SpokenCounts.SplitRefusedIff` | crates/edit-intent/src/parse.rs:549-582 | "split this into <n> lines", for any word n, is refused exactly when n is such a number |
| `SpokenCounts.SplitHeedsIff` | crates/edit-intent/src/parse.rs:549-582 | where n is no other word of the rules, it is otherwise split into sentences, however many they are |
| `SpokenCounts.ElevenIsIgnored` | crates/edit-intent/src/parse.rs:68-74 | the finding: "split this into eleven lines" splits into sentences |
| `SpokenCounts.CountedLinesAreJoined` | crates/edit-intent/src/parse.rs:558-562 | the finding: "join these <n> lines" joins all of them, for every count |
| `SpokenCounts.CountedCaseShouts` | crates/edit-intent/src/parse.rs:563-565 | the finding: "split this into <n> uppercase lines" makes everything upper-case, for every count |
| `SpokenCounts.CountedSlug` | crates/edit-intent/src/parse.rs:523-547 | the finding: "split this into <n> lines as a slug" makes everything a slug, for every count |
| `SpokenGrammar.ScopedIsWhatWasSaid` | crates/edit-intent/src/parse.rs:320-346 | a scoped intent holds no scoped and no freeform one; its scope leads the utterance and its inner intent is what the remaining words, cased as said, parse to; or it is the only scope, around a change of case |
| `SpokenGrammar.UpperCamelIsCamel` | crates/edit-intent/src/parse.rs:525-539 | the finding: a text with "upper camel case" selects screaming snake or snake case exactly when it names one, and otherwise camel case; never Pascal case |
| `SpokenScope.NeverPascal` | crates/edit-intent/src/parse.rs:523-547 | no utterance that says "upper camel case" becomes an identifier in Pascal case |
| `SpokenScope.MadeCamel` | crates/edit-intent/src/parse.rs:525-539 | the finding: "make it upper camel case" gives camel case |
| `SpokenOperands.ReplacedAsSaidIff` | crates/edit-intent/src/lib.rs:202-224 | a replacement has the operands that were said, cased as they were said, exactly when the lower-cased copy has the size of the utterance and the first operand gains nothing in it, or one byte that a space beside the joiner makes up for |
| `SpokenOperands.ReplaceIsSpoken` | crates/edit-intent/src/lib.rs:202-224 | every replacement comes from an utterance of that form, split at the last joiner, that no other rule claims |
| `SpokenOperands.UnequalNeverAsSaid` | crates/edit-intent/src/lib.rs:282-301 | when lower-casing changes the size of the utterance the operands are never what was said |
| `SpokenOperands.UnequalInserts` | crates/edit-intent/src/lib.rs:282-301 | for every verb, when it grows by d bytes: the second operand of the copy without its last d bytes is inserted, if it has as many and they are whole characters, or else the whole copy, and nothing is replaced if that leaves nothing; when it shrinks: the whole copy |
| `SpokenOperands.ShrunkInsertsAll` | crates/edit-intent/src/lib.rs:282-301 | when it shrinks, the whole lower-cased utterance is inserted |
| `SpokenOperands.ChangeGrows` | crates/edit-intent/src/lib.rs:282-301 | for any two words that grow by d bytes, what the command becomes, for every d |
| `SpokenOperands.KelvinInsertsTheCommand` | crates/edit-intent/src/lib.rs:282-301 | the finding: "change K to x" with a Kelvin sign inserts "change k to x" |
| `SpokenOperands.DottedLosesALetter` | crates/edit-intent/src/lib.rs:282-301 | the finding: "change İ to abc" inserts "ab" |
| `SpokenOperands.DottedIsRefused` | crates/edit-intent/src/lib.rs:282-301 | the finding: "change İ to x" is refused |
| `SpokenOperands.DottedInsertsTheCommand` | crates/edit-intent/src/lib.rs:282-301 | the finding: "change İ to abé" inserts the whole command |
| `SpokenOperands.EqualSizesAreNotEnough` | crates/edit-intent/src/lib.rs:282-301 | the finding: sizes that agree in total are not enough, when one operand gains what the other loses |
| `SpokenOperands.DeletedAsSaidIff` | crates/edit-intent/src/lib.rs:226-235 | a deletion names what was said exactly when lower-casing keeps the size of the utterance |
| `SpokenOperands.AppendedAsSaidIff` | crates/edit-intent/src/lib.rs:238-247 | and so does an addition |
| `SpokenGrammar.LastFindAt` | crates/edit-intent/src/lib.rs:210-214 | the joiner split at is the last one |
| `Fuzzy.EditDistance` | crates/config/src/fuzzy.rs:15-48 | the table yields the minimum cost over all edit scripts of keep, substitute, insert, delete and adjacent swap in which no region is edited twice |
| `Fuzzy.DistIsLowerBound` | crates/config/src/fuzzy.rs:15-48 | no script is cheaper than the recurrence |
| `Fuzzy.BestScript` | crates/config/src/fuzzy.rs:15-48 | a script of exactly that cost exists |
| `Fuzzy.Symmetric` | crates/config/src/fuzzy.rs:15-48 | the distance is symmetric |
| `Fuzzy.Bounds` | crates/config/src/fuzzy.rs:15-48 | zero only on equal strings; at least the difference of the lengths and at most the longer |
| `Fuzzy.TriangleFails` | crates/config/src/fuzzy.rs:15-48 | it is no metric: ca, ac and abc break the triangle inequality |
| `Fuzzy.Phonetic` | crates/config/src/fuzzy.rs:60-95 | the loop with its last-code accumulator computes the consonant code |
| `Fuzzy.CodeShape` | crates/config/src/fuzzy.rs:60-95 | a code consists of code letters and digits, has the vowel mark only in front and no symbol twice in a row, and is no longer than the text |
| `Fuzzy.SoundClassIs` | crates/config/src/fuzzy.rs:60-95 | each letter is in the class of its sound; j is with s and w with f, which the documentation does not list; a vowel counts only where it comes first |
| `Fuzzy.CodeIs` | crates/config/src/fuzzy.rs:60-95 | the letters of a code are the sounds at rising places, letters side by side differ, and every sound in the text is that of the last letter taken at or before its place |
| `Fuzzy.PhoneticIsProjection` | crates/config/src/fuzzy.rs:60-95 | the code of a code is that code, for lower-casing that maps code letters to themselves |
| `Fuzzy.SimilarityRange` | crates/config/src/fuzzy.rs:101-113 | similarity lies between 0 and 1 |
| `Fuzzy.SoundOutweighsSpelling` | crates/config/src/fuzzy.rs:97-113 | words that sound alike lose four tenths of their difference in spelling, words whose codes share nothing keep four tenths of their likeness; so any of the first score more than any of the second |
| `Fuzzy.Closest` | crates/config/src/fuzzy.rs:120-134 | the first of the nearest candidates, given exactly when one is within the limit |
| `Fuzzy.LimitAgainstDocumentation` | crates/config/src/fuzzy.rs:115-134 | every candidate that is accepted is as near as documented exactly for inputs of length 5 or at least 7 |
| `Fuzzy.UnrelatedSuggestion` | crates/config/src/fuzzy.rs:115-134 | the finding: "xy" is accepted for "ab" |
| `Fuzzy.ShortInputAcceptsAnything` | crates/config/src/fuzzy.rs:120-134 | an input of one or two letters is offered any candidate as short |
| `Segmenter.SpeechSegmenter.Push` | crates/audio/src/segment.rs:107-118 | whole frames are stepped in order and the rest kept as the tail |
| `Segmenter.SpeechSegmenter.StepFrame` | crates/audio/src/segment.rs:129-176 | the field updates of one frame: debounce, pre-roll trimming, hangover |
| `Segmenter.SpeechSegmenter.EndUtterance` | crates/audio/src/segment.rs:178-190 | the whole utterance is handed out and detector and buffers are reset |
| `Segmenter.SpeechSegmenter.Flush` | crates/audio/src/segment.rs:122-127 | an open utterance is closed, and nothing else changes |
| `Segmenter.ChunkingIsInvisible` | crates/audio/src/segment.rs:107-118 | any chunking gives the events and the final state of a single push, for any stateful detector |
| `Segmenter.FramesPartition` | crates/audio/src/segment.rs:107-118 | the frames one after the other and the rest are the samples: cutting loses nothing and moves nothing |
| `Segmenter.PendingBounded` | crates/audio/src/segment.rs:133-141 | the pending buffer never holds more than pre-roll plus debounce frames |
| `Segmenter.UtterancesInOrder` | crates/audio/src/segment.rs:129-190 | the declared utterances are disjoint, in order and inside the stream |
| `Segmenter.RunIsSegmentation` | crates/audio/src/segment.rs:129-190 | a run emits exactly the events of the declarative segmentation: start at the first full speech run, end at the first full hangover run, head of min(frames since the last end, pre-roll + debounce); with zero debounce or hangover frames one is used |
| `Segmenter.AnyChunkingIsSegmentation` | crates/audio/src/segment.rs:107-190 | the same for samples pushed in any chunks |
| `Segmenter.FlushBetween` | crates/audio/src/segment.rs:122-190 | a flush between any frames ends an open utterance, and what follows is segmented afresh; in silence it changes nothing |
| `Segmenter.AnyInputsAreSegmented` | crates/audio/src/segment.rs:122-190 | for frames and flushes in any order and number the events are those declared without the machine: a flush ends the utterance that is open, with its audio so far, and segmentation starts afresh; with none open it is as if it had not been |
| `Segmenter.StreamIsWellBracketed` | crates/audio/src/segment.rs:122-190 | over any frames and flushes, starts, partials and ends alternate, and each end carries the audio of its start and its partials |
| `Resampler.Resampler.Process` | crates/audio/src/resample.rs:55-92 | everything returned so far is the resampling of everything fed so far: output k interpolates the stream at k times the ratio, and no read leaves it |
| `Resampler.CountOf` | crates/audio/src/resample.rs:55-92 | n samples give floor((n-1)/ratio)+1 outputs |
| `Resampler.ResampledIsDetermined` | crates/audio/src/resample.rs:55-92 | the outputs are determined by the stream: output k is the mean of the two samples beside k times the ratio, weighted by how near they are |
| `Resampler.PositionIsProduct` | crates/audio/src/resample.rs:70-88 | the accumulated position is k times the ratio |
| `Resampler.CopyingIsResampling` | crates/audio/src/resample.rs:50-58 | the identity short cut is resampling at ratio one |
| `Resampler.FeedChunks` | crates/audio/src/resample.rs:55-92 | any chunking returns the resampling of the whole stream |
| `Ring.Ring.Push` | crates/audio/src/ring.rs:70-87 | the newest samples that fit are kept, also when the push is larger than the ring, and the others are counted as dropped |
| `Ring.Ring.Pop` | crates/audio/src/ring.rs:90-98 | the oldest samples are delivered in order |
| `Ring.Ring.Len` | crates/audio/src/ring.rs:100-102 | the number of samples buffered |
| `Ring.Conservation` | crates/audio/src/ring.rs:70-112 | over every run the buffer is a suffix of everything pushed, and pushed = delivered + dropped + buffered |
| `Ring.LosslessIffDrained` | crates/audio/src/ring.rs:70-112 | nothing is ever dropped exactly when what is outstanding always fits |
| `Ring.LosslessMeansEverything` | crates/audio/src/ring.rs:70-112 | and then delivered followed by buffered is everything pushed, in order |
| `ModelFetch.Cache.Fetch` | crates/asr/src/models.rs:178-266 | with a final file it answers and does what verify_cached does; without one, Ok exactly when the reply has an uncut body that could be written and the bytes, after those there were if it resumes them, hash to the pin, and then they are the final file; the condition and the files of every other outcome; rising byte counts; and it is one of the machine's runs |
| `ModelFetch.Cache.VerifyCached` | crates/asr/src/models.rs:295-314 | Ok exactly for an unpinned model, beside a marker, or for a file that hashes to the pin, which is kept and marked if the write works; Io for no file, Mismatch for a wrong one, which is removed; and it is one of the machine's runs |
| `ModelFetch.Cache.Receive` | crates/asr/src/models.rs:226-241 | the read/write loop appends the whole body in reads of at most 64 KiB |
| `ModelFetch.Safety` | crates/asr/src/models.rs:178-314 | in every run, with a crash between any two steps, failing operations and any server, a marker beside a final file vouches for it |
| `ModelFetch.OkMeansVerified` | crates/asr/src/models.rs:178-314 | an Ok from fetch means a final file that hashes to the pin; an Ok from verify_cached means that, or a marker with no file |
| `ModelFetch.PartialIsAPrefix` | crates/asr/src/models.rs:195-241 | against an honest server the partial file is a prefix of the content in every reachable state, and the body still to come completes it |
| `ModelFetch.RangeServerIsHonest` | crates/asr/src/models.rs:195-209 | a server that honours ranges is honest, so the theorem above holds of it |
| `ModelFetch.ResumeSucceedsIff` | crates/asr/src/models.rs:195-266 | against a server that honours ranges a fetch over a correct partial file succeeds exactly when that file is empty or not yet complete |
| `ModelFetch.CompletePartialIsStuck` | crates/asr/src/models.rs:195-209 | the finding: after a crash between last byte and rename no number of fetches recovers |
| `ModelFetch.WronglyAcceptedIff` | crates/asr/src/models.rs:295-314 | a file that does not hash to the pin is accepted exactly when there is a marker |
| `ModelFetch.MissingAcceptedIff` | crates/asr/src/models.rs:295-314 | and no file at all of a pinned model is accepted exactly then |
| `ModelFetch.MissingModelVerifies` | crates/asr/src/models.rs:295-314 | the finding: a model fetched and deleted, its marker left, is verified |
| `ModelFetch.PinAddedLater` | crates/asr/src/models.rs:246-265 | the finding: a model fetched unpinned is marked as verified, and is accepted unhashed under a pin added later |
| `ModelFetch.TwoFetchersBreakIt` | crates/asr/src/models.rs:218-265 | the finding: an interleaved run of two processes on one directory, with an honest server and no crash, marks an empty file as verified |
| `ModelFetch.TwoResumersBreakIt` | crates/asr/src/models.rs:218-265 | the finding: of two processes that resume one partial file, with a server that honours ranges, the second appends to the file that the first has verified, renamed and marked |
| `ModelFetch.QuietRunIsSafe` | crates/asr/src/models.rs:178-314 | two processes, in any interleaving, with crashes and any server: as long as neither opens or writes the partial file between the other's hash and its rename, nor writes to it after the rename, a marker beside a final file vouches for it, and an Ok left no file that does not hash to the pin |
| `ModelFetch.SoundStepIff` | crates/asr/src/models.rs:226-265 | one event of one process keeps what both take for granted exactly when it leaves no partial file of another content to the other about to rename it, and writes no other content to a final file that is marked or about to be |
| `ModelFetch.SoundIff` | crates/asr/src/models.rs:178-314 | and nothing weaker will do: what both take for granted holds of a state exactly when every such run from it keeps the marker truthful |
| `ModelFetch.RenamesAndStamps` | crates/asr/src/models.rs:246-265 | the converse at the step: a process about to rename a partial file, of whatever content, marks it with its next two operations |
| `ModelFetch.CalmRunIsVerified` | crates/asr/src/models.rs:178-314 | if also none removes or replaces the final file while the other relies on it, an Ok means for two processes what it means for one |
| `ModelFetch.StaleVerdictRemovesIt` | crates/asr/src/models.rs:246-265 | the finding: a verdict on an old file removes the new one of the other process, whose fetch answers Ok |
| `ModelFetch.OneAtATimeIsVerified` | crates/asr/src/models.rs:178-314 | calls of two processes that do not overlap are safe: an Ok means a verified file |
| `Profiles.Select` | crates/config/src/profile.rs:133-160 | the profile returned is the most preferred of those that match (bundle id, process name, window class; then exact; then longer), the first in the file among equals, and the reason names the match it is explained against and why that lost |
| `Profiles.MatchesIff` | crates/config/src/profile.rs:70-83 | a profile matches an application exactly when its pattern, in lower case, stands for the application's name of that kind in lower case: a final star for anything after the stem, any other pattern for itself |
| `Profiles.ChosenIsBest` | crates/config/src/profile.rs:133-160 | no match outranks the winner, every match before it ranks strictly lower, it is the only match exactly when the reason says so, and otherwise the profile named matches too |
| `Profiles.ReportOverlaps` | crates/config/src/validate.rs:436-477 | the nested loops list the warnings of all pairs that have one, each once, in file order |
| `Profiles.EveryPairReported` | crates/config/src/validate.rs:436-477 | every pair that overlaps is in the list |
| `Profiles.OnlyPairsReported` | crates/config/src/validate.rs:436-477 | nothing else is |
| `Profiles.ReportedIffShared` | crates/config/src/validate.rs:480-487 | two profiles are reported exactly when they are of one kind and some application matches both |
| `Profiles.WarningIsTrueIff` | crates/config/src/validate.rs:447-476 | for every application matching both, select on the pair returns the reported winner for the reported reason exactly when lower-casing leaves the comparison of lengths in bytes alone or only one pattern has a star |
| `Profiles.SelectedNeverLoses` | crates/config/src/profile.rs:133-160 | in a whole file, the selected profile wins every warning it shares with another matching profile of its kind, for the reason the warning gives |
| `Profiles.PlainLengthsAgree` | crates/config/src/profile.rs:163-168 | that condition holds of all patterns whose characters each keep their size |
| `Profiles.WarningCanBeWrong` | crates/config/src/validate.rs:447-476 | the finding: it can fail with a dotted capital I |
| `Profiles.WarningCanBeWrongByBytes` | crates/config/src/validate.rs:447-476 | the finding: and with a Kelvin sign, which keeps the number of characters |
| `Layers.Build` | crates/config/src/layers.rs:94-192 | fails exactly on a file that is not TOML; otherwise the default layer holds each key's own default, then come the system and the user file, each saying v of a key exactly when the last acceptable leaf to which the keys lead through its tables holds v, then the environment, whose layers say what the last variable that sets the key gives; every value valid, later layers of higher precedence |
| `Documents.FlattenedIsDocument` | crates/config/src/validate.rs:208-229 | flattening keeps every leaf to which a chain of keys leads through tables and outside profiles, under the dotted keys, in the order of the document, and nothing else |
| `Documents.DottedIsJoined` | crates/config/src/validate.rs:208-214 | the dotted key is the keys with dots between them, when the first is not empty |
| `Documents.CoerceIff` | crates/config/src/validate.rs:264-297 | an item gives the value it holds exactly when it is of the type of the default |
| `Documents.FileSaysIff` | crates/config/src/validate.rs:203-262 | a file says v of a key exactly when the last acceptable leaf under the key holds v; the schema version is no setting |
| `Documents.ProfileSaysIff` | crates/config/src/validate.rs:406-428 | the overrides of a profile say v of a key exactly when the last acceptable leaf of its body under the key, outside "match", holds v |
| `Documents.FileProfilesAre` | crates/config/src/validate.rs:316-428 | the profiles of a file are the accepted ones of its profile table, in order |
| `Layers.EnvSaysIff` | crates/config/src/layers.rs:127-180 | what the environment says of a key is what the last variable gives that sets it: by its prefix, the first key of the schema that its name reads like, and its text |
| `Layers.ParseEnvIff` | crates/config/src/schema.rs:58-81 | a variable's text gives the value of the key's type: the text, one of four words for each truth value, an integer, or the trimmed pieces between commas |
| `Settings.CheckAll` | crates/config/src/validate.rs:231-262 | the loop accepts the settings that its specification does, and lists the complaints of all entries that have one, each once, in the order of the entries |
| `Settings.RefusedIff` | crates/config/src/validate.rs:231-262 | a key is reported as unknown exactly when the schema lacks it, as of the wrong type and as out of bounds exactly when an entry of it is |
| `Settings.NoneDropped` | crates/config/src/validate.rs:231-262 | every entry's key has a value or the entry has its complaint in the list |
| `Settings.LastValidWins` | crates/config/src/validate.rs:231-262 | a key has a value exactly when an entry passes, and then that of the last that does |
| `Settings.Checked` | crates/config/src/validate.rs:231-297 | an accepted value has the schema's type and passes its constraint |
| `Settings.PassesIff` | crates/config/src/schema.rs:102-140 | a constraint admits a string among its options, one that reads as a chord, or a number between its bounds, the bounds included |
| `Settings.KindNamedIff` | crates/config/src/validate.rs:316-428 | the three matchers and the kinds they name |
| `Settings.ParseProfile` | crates/config/src/validate.rs:316-428 | overrides of an accepted profile are all valid |
| `Settings.ProfileAcceptedIff` | crates/config/src/validate.rs:316-428 | a profile is accepted exactly when it is a table whose match table has one entry, a known matcher with a string; that becomes its matcher |
| `Layers.CurrentPrefixWins` | crates/config/src/layers.rs:127-180 | whatever the spelling of the variables, a key set under the current prefix takes its value from there |
| `Layers.EnvIsValid` | crates/config/src/layers.rs:150-180 | values from the environment have the schema's type and pass their constraint |
| `Layers.HeardInOrder` | crates/config/src/layers.rs:204-234 | the layers that speak of a key are listed in strictly rising precedence, are exactly those that set it, and say valid values only |
| `Layers.GetFor` | crates/config/src/layers.rs:204-234 | an answer exactly for keys of the schema: the whole history, with the value of the highest layer on top: the environment before the active profile, before the user file, before the system file, before the default |
| `Layers.All` | crates/config/src/layers.rs:272-282 | never fails, for every application |
| `Vocabulary.BestMatch` | crates/config/src/vocab.rs:349-378 | None for short candidates and known terms, else the entry its specification picks |
| `Vocabulary.HighestIsFirstBest` | crates/config/src/vocab.rs:355-376 | the entry picked scores at least as well as any, and better than any before it |
| `Vocabulary.BestIsNearest` | crates/config/src/vocab.rs:349-378 | the entry found is long enough, near enough, not begun by the candidate and scores highest, the first of these; and there is one exactly if some entry is near and none is spoken like the candidate |
| `Vocabulary.StripIsCore` | crates/config/src/vocab.rs:381-383 | what is compared is the word without the runs at its ends that have no letter or digit |
| `Vocabulary.ApplyFuzzy` | crates/config/src/vocab.rs:255-345 | the text comes back if there is no term of five letters; otherwise it is the tokens of steps that cut its words: a pair is taken exactly when neither word is a term and the nearest entry to the two is at least as near as the nearest to the first; what is taken becomes the written form and the run that ends the last word, unless the entry drops it; the log has the words, the token and the entry's line of each |
| `Vocabulary.LogRecoversTheWords` | crates/config/src/vocab.rs:275-345 | the words are cut into groups of one or two, one token each; putting the from texts of the log back at the places of the corrections gives the input's words joined by single spaces |
| `Vocabulary.NothingLoggedNothingChanged` | crates/config/src/vocab.rs:304-345 | an empty log means that no word changed |
| `Vocabulary.TermsSurvive` | crates/config/src/vocab.rs:263-345 | a word that is a spoken term to correct towards keeps its place and spelling |
| `Vocabulary.TermsStaySingle` | crates/config/src/vocab.rs:264-298 | any term, spoken or written and of any length, is left out of every pair |
| `Vocabulary.LosslessIff` | crates/config/src/vocab.rs:255-345 | when nothing is corrected, the text comes back exactly if there is no term to correct towards or its only white space is single spaces between words |
| `Vocabulary.LineBreaksAreLost` | crates/config/src/vocab.rs:275-345 | the finding: with any term to correct towards, a line break becomes a space although nothing is corrected |
| `Vocabulary.OneTermIsEnough` | crates/config/src/vocab.rs:275-345 | the finding, with one term that the text does not contain |
| `AppRegistry.OrderDoesNotMatter` | crates/app-command/src/registry.rs:82-168 | any permutation of the applications gives the same single app or the same multiset of candidates |
| `AppRegistry.NamesEntries` | crates/app-command/src/registry.rs:82-168 | every app named is a registry entry, and an ambiguous answer has at least two |
| `AppRegistry.OneMeansClear` | crates/app-command/src/registry.rs:82-168 | one app is answered only if it is the only exact match, or the only prefix match, or, with no prefix match at all, ahead of every other similar name by the margin |
| `AppRegistry.ExactNameWins` | crates/app-command/src/registry.rs:89-98 | if exactly one application has the name that was said, it is the answer, whatever others begin so |
| `AppRegistry.WordsDecide` | crates/app-command/src/registry.rs:100-128 | if not, and exactly one has a word beginning so, it is that one; if several have, the answer lists each of them and no other |
| `AppRegistry.ScoresDecide` | crates/app-command/src/registry.rs:130-168 | if none has, it is the one that sounds like it and is ahead of every other by the margin; if some sound like it and none is, the answer lists each of them and no other, by falling score |
| `AppRegistry.PrefixIffWord` | crates/app-command/src/registry.rs:104-116 | a word begins so exactly when the name or one of the pieces between characters that are no letters or digits does |
| `AppRegistry.AlikeIff` | crates/app-command/src/registry.rs:130-168 | a name sounds like what was said exactly when it nowhere contains it and their similarity is at least 0.72 |
| `AppRegistry.NoMatchIff` | crates/app-command/src/registry.rs:82-168 | no app is answered exactly when nothing was said or no name begins a word so or sounds like it |
| `Replay.Serialize` | crates/diag/src/replay.rs:386-466 | the lines of the record's fields, in order |
| `Replay.Parse` | crates/diag/src/replay.rs:471-588 | the record its specification reads, or the number of the bad line; what these are for any text, see `RecordIs` and `ErrIff` |
| `ReplayRoundTrip.RoundTripIffClean` | crates/diag/src/replay.rs:386-588 | parse(serialize(r)) == r exactly when every string is non-empty, on one line and without trailing white space, and no timing label has a space or line break |
| `ReplayRoundTrip.ParseOfSerialize` | crates/diag/src/replay.rs:386-588 | what comes back for any record at all |
| `ReplayRoundTrip.UncleanIsLost` | crates/diag/src/replay.rs:597-605 | a record that comes back is clean |
| `ReplayRoundTrip.LineRead` | crates/diag/src/replay.rs:483-588 | each printed line reads back as its field, its text trimmed, or is rejected |
| `ReplayRoundTrip.Rebuild` | crates/diag/src/replay.rs:386-588 | storing the printed fields one after the other rebuilds the record |
| `ReplayRoundTrip.ForeignLinesIgnored` | crates/diag/src/replay.rs:471-588 | a well-formed line with an unknown key, inserted anywhere after the schema line, changes nothing |
| `ReplayReading.ErrIff` | crates/diag/src/replay.rs:471-508 | any text is refused at line 1 exactly when that is not one of the two names of the format, with white space around it or not; and else at the first later line, counting from 1, that has no value or one that its key cannot take |
| `ReplayReading.RecordIs` | crates/diag/src/replay.rs:483-588 | any text that is not refused: under each key the record holds what the last line with that key says, and is blank without one; a section is there exactly if a line has one of its keys; the two sets hold each value said; and each stage has the time last said of it |
| `ReplayReading.NumberIff` | crates/diag/src/replay.rs:512-516 | a value is read as n exactly when it is an optional plus sign, any zeros and n as it is printed, and n fits into 64 bits |
| `ReplayReading.PrintedInOrder` | crates/diag/src/replay.rs:386-466 | the printed lines stand in the order of the format, none of them twice but those of variables, commands and stages |
| `ReplayText.ParseDecimal` | crates/diag/src/replay.rs:597-605 | printed numbers read back |
| `EditWindow.WindowIsExact` | crates/diag/src/replay.rs:622-637 | the window reconstructs the edit, and no window that does keeps a longer prefix, or with the same prefix a longer suffix |
| `EditWindow.EmptyWindow` | crates/diag/src/replay.rs:615-637 | the window is empty on both sides exactly when nothing changed, and then stands at the end of the text, so it is the documented (0, 0, 0) exactly for the empty text |
| `EditWindow.RecordedIsConsistent` | crates/diag/src/replay.rs:285-294 | every recorded transform passes the geometry test |
| `EditWindow.PossibleIff` | crates/diag/src/replay.rs:612-637 | a geometry is recorded for some pair of texts exactly when it adds up and is not a window of nothing before the end |
| `EditWindow.CheckIsExact` | crates/diag/src/replay.rs:360-382 | where overflow stops it, the test accepts exactly those and the windows of nothing in the wrong place |
| `EditWindow.ImpossibleRecords` | crates/diag/src/replay.rs:360-382 | the finding: a record of no edit that is accepted, and one that overflows the test |
| `EditWindow.WrappingIsExact` | crates/diag/src/replay.rs:360-382 | with wrapping arithmetic it accepts the record of every edit, and of what else it accepts all are windows of nothing in the wrong place or have a sum that wraps around |
| `EditWindow.BuildsAgree` | crates/diag/src/replay.rs:360-382 | where the checked build gets to an answer, the wrapping one gives the same; it is stopped exactly by a first sum out of range, or by the second if the lengths add up |
| `EditWindow.WrappedWindowAccepted` | crates/diag/src/replay.rs:360-382 | the finding: a record of no pair of texts, accepted because its window wraps around |
| `PngUnfilter.UnfilterRow` | scripts/ci-check-icon-not-blank.py:66-80 | decoding in place: every byte becomes, modulo 256, the filtered one and what the standard adds for the filter type (the left byte, the one above, half their sum, or the predictor), and filtering the decoded row gives the bytes that were there |
| `PngUnfilter.UnfilterImage` | scripts/ci-check-icon-not-blank.py:57-82 | the decoded rows, filtered with the types met, are the input |
| `PngUnfilter.DecodingInverts` | scripts/ci-check-icon-not-blank.py:57-82 | whatever satisfies the contract of the decoder on a filtered image is that image, with the filter types it was filtered with |
| `PngUnfilter.RoundTrip` | scripts/ci-check-icon-not-blank.py:57-82 | so decoding inverts filtering for every image and every choice of filter type per row, 0 to 4 and the unassigned ones |
| `PngUnfilter.FilteringIsInjective` | scripts/ci-check-icon-not-blank.py:66-80 | two rows that filter alike are the same |
| `PngUnfilter.Paeth` | scripts/ci-check-icon-not-blank.py:76-79 | the predictor is the neighbour nearest to a + b - c, ties to the left, then above (RFC 2083, section 6.6) |

## Left out

- Bytes against characters elsewhere than in operands and patterns: the search that replaces text, the edit window and the session record count characters.
- SpokenOperands.ReplacedAsSaidIff: verb and joiner are taken to be said in one-byte letters, one for each; only a Kelvin sign in "make" is not, and `UnequalNeverAsSaid` and `ShrunkInsertsAll` hold of it too.
- The contextual rule for a final sigma in lower-casing.
- Rounding of 32-bit and 64-bit floating point; stable sorting of scores by `total_cmp` is by exact comparison.
- Applying a scoped intent, punctuation, case changes, identifiers and lists to text (`crates/edit-intent/src/apply.rs`, apart from the search): they depend on the segmentation of text into sentences, which is not part of this model.
- Word-bounded replacement in the vocabulary (`apply_replacements`), vocabulary parsing and `merge`.
- SpokenGrammar.OnlyScope: the rules use the function that this loop is proved equal to, since a function cannot call a method.
- SpokenGrammar.OnlyMarkOf: likewise.
- Scope safety of `DeleteMark`, which the source does not check.
- Layers.Build: warnings and suggestions are not modelled, nor the TOML parser, and the layers of the environment come in any order of their keys.
- Settings.CheckAll: the texts of the errors are not modelled, only their kinds and keys.
- Ring.Ring.Push: the drop counter is unbounded, not 64-bit; sharing between threads is a sequence of whole operations under the lock.
- ModelFetch.Cache.Fetch: writes reach the disk in order; a loss of power that reorders them, which the source does not guard against, is not modelled. Hashing and renaming are single steps. Creating the directory always succeeds.
- ModelFetch.Safety: assumes that between calls nobody adds a marker or replaces a file that has one, and that nobody else writes during a call; `QuietRunIsSafe` and `CalmRunIsVerified` say what two processes may do.
- ModelFetch.QuietRunIsSafe: where two processes write one open file, each is taken to append to it, while one that created it writes at its own offset; what is written does not matter to the theorem.
- Vocabulary.LogRecoversTheWords: putting back takes the places of the corrections, which the log does not hold.
- PngUnfilter.UnfilterImage: chunk parsing and decompression are not modelled.
- Down-mixing channels; recording of environment, intents and timings before a record is printed.
- Devices, capture, key synthesis, launching of applications, speech recognition backends.
