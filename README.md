# Keyword explanation and phrase merging, modelled in Dafny

This project models the core of a keyword-mining toolkit. The toolkit explains a text
classifier's decision by deleting words from the text. It turns the most influential
words into "rules" of adjacent phrases, and it tokenizes mixed Chinese/English text
for both steps. There are three parts:

- **The perturbation explainer** (`simple_explainer.dfy`, module `SimpleExplainer`).
  - It builds one sample per removal of every run of 1 .. `ngram` consecutive word ids. The samples come in a fixed flat order: all unigrams, then all bigrams, and so on.
  - It maps a flat index back to the removed word ids and to the text snippet.
  - It scores each removal by how much it lowered the target class's score.
  - It zeroes an n-gram whose removal lowered the score less than removing one of its own words did (its score change is greater than that word's).
  - It reports the top snippets, ranked by that score.
- **The phrase merger** (`post_process.dfy`, module `PostProcess`).
  - `min_distance` is 0 for the same word and 1 for neighbouring word ids, without looking at positions. Otherwise it scans the position pairs and returns the first gap of at most 1 in loop order, or else the smallest gap, capped at the word count.
  - `merge` keeps adjacent pairs of weighted words as phrases under a running maximum weight. It also keeps unpaired words of at least a tenth of that maximum, then sorts the pieces and joins them with `&`.
  - `process` does this for one line of a record file.
- **The tokenizer glue** (`tokenization.dfy`, module `Tokenization`).
  - `split_sents` cuts a text around dictionary matches into pieces of at most 126 characters.
  - `merge_parts` puts the tokenized pieces and the matched words back into text order.
  - There is a CJK code point test and a "has Chinese" scan.
  - A filter drops spaces and punctuation tokens.

Shared pieces:

- `common.dfy` (module `Common`): Python's `join`, `split` on one character and `rstrip`.
- `sorting.dfy` (module `Sorting`): an insertion sort standing for `sorted`/`list.sort`, with Python's orders on strings, lists and tuples. The sort is not stable: an element goes before equal ones already placed. Stability does not matter here, because the orders used are antisymmetric, so the sorted result is unique (`SortedUnique`).
- `indexed_text.dfy` (module `IndexedText`): the view of LIME's `IndexedString` that the core uses. It is the raw text, the vocabulary, the positions of each word, and the function that removes word ids.

The model's form follows the source:

- Some code updates variables in loops: `get_word_ids`, the sample loop of `__data_labels`, `min_distance`, the loops of `merge`, `split_sents`, `has_chinese`, and the distance loop over the `np.zeros` buffer. These become methods with loop invariants. Each is proved equal to a specification function, and the properties are lemmas about that function.
- Pure code (`get_text_snippet`, `merge_parts`, `_is_chinese_char`, the filter) becomes functions and lemmas.

## Model

| member | source | states |
|---|---|---|
| SimpleExplainer.NewExplainer | simple_explainer.py:6-11 | An explainer exists exactly when `ngram >= 1`, and it stores the given `ngram` and threshold. |
| SimpleExplainer.Perturbations | simple_explainer.py:17-21 | The number of removal samples is the sum over n-gram sizes of how many runs of that size fit in the text. |
| SimpleExplainer.TotalSaturates | simple_explainer.py:17-19 | An `ngram` larger than the text adds no samples beyond those of `ngram` = the word count. |
| SimpleExplainer.TotalClosedForm | simple_explainer.py:17-19 | With every n-gram size, a text of N words gives N(N+1)/2 removal samples. |
| SimpleExplainer.PerturbationAt | simple_explainer.py:17-21 | The (n+1)-gram that starts at word i is removed by the sample at flat index Total(N, n) + i, and that sample removes exactly ids i .. i+n. |
| SimpleExplainer.InverseData | simple_explainer.py:15-21 | Sample 0 is the raw text. Sample j+1 is the text with the word ids of perturbation j removed. There are 1 + Total(N, ngram) samples, and never more than 1 + N(N+1)/2. |
| SimpleExplainer.DataLabels | simple_explainer.py:13-23 | The sample-building loops produce exactly the samples `InverseData` describes. |
| SimpleExplainer.Locate | simple_explainer.py:57-66 | A flat index maps to an n-gram size and first word whose block offset plus first word is that index, with the first word inside the block. |
| SimpleExplainer.LocateFlatIndex | simple_explainer.py:57-66 | Locating the flat index of the (n+1)-gram at i gives back that n-gram: the inverse direction of `PerturbationAt`. |
| SimpleExplainer.WordIds | simple_explainer.py:57-68 | The ids for a flat index are a non-empty run of consecutive ids, all below the word count. |
| SimpleExplainer.WordIdsArePerturbation | simple_explainer.py:57-68 | The ids recovered for flat index j are exactly the ids that sample j+1 removed, for any `ngram` that produced index j. |
| SimpleExplainer.GetWordIds | simple_explainer.py:57-68 | The offset-accumulating loop returns the ids `WordIds` specifies. |
| SimpleExplainer.TextSnippet | simple_explainer.py:70-74 | A snippet is the concatenation, without separator, of the words of the n-gram at that flat index. |
| SimpleExplainer.Distances | simple_explainer.py:37-46 | There is one distance per sample after the first, each the filtered score change of that sample. |
| SimpleExplainer.DistanceZeroing | simple_explainer.py:38-46 | A distance is either the raw score change or 0. It differs from the raw change only for an n-gram with n >= 2 whose raw change is greater than the distance of one of its words, i.e. which lowered the score less than that word removed alone. |
| SimpleExplainer.LastDistanceIsZero | simple_explainer.py:37-38 | The loop stops one short, so the last sample's distance stays 0 whatever the classifier says. |
| SimpleExplainer.NgramNotAboveItsWords | simple_explainer.py:40-46 | An n-gram that keeps a non-zero distance has a distance at most each of its words' distances: it lowered the score at least as much as each word removed alone. |
| SimpleExplainer.ArgSort | simple_explainer.py:48 | The order is a permutation of the sample indices that lists the distances in non-decreasing order. |
| SimpleExplainer.FilterDistances | simple_explainer.py:37-46 | The loop over the zero-initialised buffer leaves exactly `Distances` in it. |
| SimpleExplainer.TopFeatures | simple_explainer.py:49-54 | The result has the requested count. Entry q is the snippet and the negated distance of the q-th smallest distance, so scores do not increase. |
| SimpleExplainer.ExplainInstance | simple_explainer.py:25-55 | `None` exactly when the base score of the target class is below the threshold. Otherwise there are min(num_features, samples - 1) entries: snippets and negated distances in the order of some ascending argsort of the distances, with scores non-increasing. |
| PostProcess.ScanRowResult | post_process.py:18-23 | The inner scan stops early exactly when some position is within 1 of p1, and then returns the gap of the first such position. Otherwise it returns the least of the running minimum and all gaps. |
| PostProcess.ScanRowsFirstClose | post_process.py:17-21 | If some pair of positions is within 1, the scan returns the gap of the first such pair in loop order. |
| PostProcess.ScanRowsNoClose | post_process.py:17-24 | If no pair is within 1, the scan returns a lower bound of every gap that is either its start value or one of the gaps. |
| PostProcess.MinDistance | post_process.py:9-24 | The nested loops with early returns compute `MinDistanceOf`. |
| PostProcess.MinDistanceCases | post_process.py:9-24 | The same id gives 0. Neighbouring ids give 1 without looking at positions. The result lies in 0 .. word count. Otherwise it is the first close gap, or else the smallest gap, capped at the word count. |
| PostProcess.WordIndex | post_process.py:31-37 | `word2index` maps each weighted vocabulary word to its last id, and maps nothing else. |
| PostProcess.BuildIndex | post_process.py:31-37 | The vocabulary loop builds exactly that `word2index`. |
| PostProcess.Phrase | post_process.py:60-61 | Definition: the word with the smaller id comes first, separated by one space exactly when both words are alphabetic. |
| PostProcess.PairStepCases | post_process.py:42-70 | A pass of the pair loop either changes nothing, or accepts one pair of unclaimed, indexed, adjacent words. The accepted pair weighs more than a tenth of the current maximum, and the maximum becomes the larger of itself and that weight. |
| PostProcess.PairStepKeepsInv | post_process.py:42-70 | Each pass keeps the loop invariant. Accepted pairs are valid and their claimed words disjoint. `max_weight` is the running maximum of the accepted weights, and each pair was met at the running maximum of the pairs before it. |
| PostProcess.PairsFromPreserves | post_process.py:42 | The loop over `combinations(words, 2)` keeps any property that one pass keeps. |
| PostProcess.PairsInvariant | post_process.py:42-70 | The invariant holds when the pair loop ends. |
| PostProcess.ClaimedCount | post_process.py:65-70 | With disjoint claims of two distinct words each, `concat_words` holds two words per accepted pair. |
| PostProcess.ClaimedPairs | post_process.py:42-70 | After the loop, `concat_words` has exactly twice as many words as there are phrases, all of them dictionary words. |
| PostProcess.StandaloneMembers | post_process.py:72-78 | A word is kept on its own exactly when it is a dictionary word, unclaimed and of weight at least the threshold. |
| PostProcess.StandaloneCount | post_process.py:72-78 | Kept single words plus claimed dictionary words never exceed the dictionary size. |
| PostProcess.CandidatesBound | post_process.py:42-78 | `merge` yields at most as many pieces as there are dictionary words. |
| PostProcess.PairLoopBody | post_process.py:43-70 | One pass of the pair-loop body on the loop's own variables: the new `candidate`, `concat_words` and `max_weight` are those `PairStep` gives, and `candidate` stays the phrases of the accepted pairs. |
| PostProcess.PairLoop | post_process.py:39-70 | The pair loop computes the phrases, `concat_words` and `max_weight`, as `Pairs` specifies. |
| PostProcess.AddStandalone | post_process.py:72-78 | The standalone loop appends exactly the standalone words, in dictionary order. |
| PostProcess.Merge | post_process.py:27-81 | For a dictionary with distinct keys, `merge` returns the sorted candidates joined by `&`. |
| PostProcess.RulesAvoid | post_process.py:60-81 | A character in no dictionary word that is neither a space nor `&` never occurs in the rule string. |
| PostProcess.Put | post_process.py:94 | A dict store: the keys become the old keys plus `key`, and distinct keys stay distinct. On distinct keys, an existing key is replaced where it stands and every other entry is unchanged. A new key is appended last. |
| PostProcess.DictOf | post_process.py:94 | The dict built from the parsed pairs has distinct keys, exactly the parsed words. |
| PostProcess.DictOfLastWins | post_process.py:94 | Each entry of the dict is the last parsed pair with its key: a later item overwrites an earlier value. |
| PostProcess.DictOfFirstOrder | post_process.py:94 | The dict's keys stand in the order of their first parsed pair, which is the order `combinations(words, 2)` and `words.items()` then follow. |
| PostProcess.ProcessLine | post_process.py:88-96 | A line without a second field fails. A sentence of at most 8 characters is written as its own rule. Otherwise the record is the merged rules, the sentence and the word field, each followed by SOH except the last, which ends with a newline. |
| PostProcess.RecordFields | post_process.py:91 | A record ends with a newline, and splitting the rest at SOH gives back its fields when no field contains SOH. |
| PostProcess.ProcessLineFields | post_process.py:93-96 | A merged output line splits back into the rule string, the sentence and the word field. |
| Common.Join | post_process.py:81 | Definition: `sep.join(parts)`, the parts with `sep` between neighbours; a single part is returned as it is. |
| Common.Split | post_process.py:88 | Definition: `s.split(c)` for one character `c`, the pieces between the occurrences of `c`: at least one piece, and none contains `c`. |
| Common.JoinSplit | post_process.py:88 | Joining the pieces of a split with the separator gives the string back. |
| Common.SplitJoin | post_process.py:91 | Splitting a join of separator-free pieces gives the pieces back. |
| Common.RStrip | post_process.py:88 | `rstrip` keeps a prefix that does not end in whitespace and drops only whitespace. |
| Sorting.SortBy | post_process.py:80 | The sort returns a sorted permutation of its input. |
| Sorting.SortedUnique | tokenization.py:124 | Under an antisymmetric total order, two sorted permutations of one list are equal. |
| Sorting.StrLeIsTotalOrder | post_process.py:80 | Python's string order is total, transitive and antisymmetric. |
| Sorting.ItemLeIsTotalOrder | tokenization.py:124 | Python's order on `(offset, token list)` tuples is total, transitive and antisymmetric. |
| Tokenization.ChunksFacts | tokenization.py:95-103 | A gap is cut at a multiple of 126 past its start into non-empty in-place pieces of at most 126 characters, all but the last exactly 126, that cover the gap. |
| Tokenization.LayoutInPlace | tokenization.py:93-115 | Every piece is the text at its offset. |
| Tokenization.LayoutOrdered | tokenization.py:93-115 | Pieces follow each other without overlap. |
| Tokenization.LayoutAvoidsMatches | tokenization.py:93-115 | No piece overlaps a dictionary match. |
| Tokenization.LayoutCovers | tokenization.py:93-115 | Every position outside the matches, from the start on, lies in some piece. |
| Tokenization.ChunkGap | tokenization.py:94-103 | One gap loop appends exactly the chunks of the gap to `sents` and `offsets`. |
| Tokenization.SplitSents | tokenization.py:88-116 | `split_sents` returns the matches unchanged and the texts and offsets of the layout's pieces. |
| Tokenization.SplitSentsFacts | tokenization.py:88-116 | On the returned lists: each piece is non-empty, at most 126 characters and in place. Offsets increase without overlap, and no piece overlaps a match. |
| Tokenization.SplitSentsCover | tokenization.py:88-116 | Every position of the text outside the matches lies in a returned piece. |
| Tokenization.Zip | tokenization.py:120 | Definition: `zip` pairs offsets and parts up to the shorter list. |
| Tokenization.MergeParts | tokenization.py:119-124 | Definition: the parts zipped with their offsets plus one `(start, [word])` entry per match, sorted by Python tuple order, their token lists concatenated. |
| Tokenization.MergePartsAnyArrangement | tokenization.py:119-124 | The merged tokens are those of any sorted arrangement of the entries, so the sort leaves nothing to chance. |
| Tokenization.InterleaveAscending | tokenization.py:88-124 | Pieces and matched words, interleaved in text order, have strictly increasing offsets, none before the starting point; so no two entries tie on the offset. |
| Tokenization.MergeUndoesSplit | tokenization.py:88-124 | With a tokenizer that returns each piece whole, and well-formed matches whose words are the text they cover, `merge_parts` after `split_sents` concatenates back to the text. |
| Tokenization.IsChineseChar | tokenization.py:132-150 | Definition: the code point lies in one of the eight CJK blocks, bounds included. |
| Tokenization.SpacedScriptsNotChinese | tokenization.py:136-150 | A text written only in ASCII, Hangul or kana has no character the CJK test accepts, so it takes the English path. |
| Tokenization.HasChineseConcat | tokenization.py:153-158 | Joining two texts gives a Chinese text exactly when one of them is Chinese. |
| Tokenization.HasChinese | tokenization.py:153-158 | The scan returns true exactly when some character of the text is a CJK character. |
| Tokenization.KeepToken | tokenization.py:176-178 | Definition of `filter_fn`: the token is not a single space and is a substring of neither punctuation string. |
| Tokenization.FilterTokens | tokenization.py:179 | Definition: `list(filter(filter_fn, ret))`, the tokens that pass `KeepToken`, in order. |
| Tokenization.FilterKept | tokenization.py:179 | The filter returns exactly the tokens at the positions that pass, in their original order. |
| Tokenization.KeptAtAscending | tokenization.py:179 | The kept positions strictly increase, so the filter keeps the input order. |
| Tokenization.KeptAtPass | tokenization.py:179 | Each kept position is a position of the input whose token passes the test. |
| Tokenization.KeptAtComplete | tokenization.py:179 | Every position whose token passes is kept. |
| Tokenization.FilterMembers | tokenization.py:179 | A token survives exactly when it occurred and passes the test. |
| Tokenization.FilterDropsPunctuation | tokenization.py:176-179 | No surviving token is empty, a single space, or a single Chinese or ASCII punctuation mark. |
| Tokenization.Tokenize | tokenization.py:173-179 | CJK text goes through split, the sequence tokenizer and merge; other text through the English tokenizer; then the filter applies. |

## Left out

- The classifier, HanLP's tokenizers and the dictionary trie are calls into code outside this model.
  - The classifier is a function parameter of `ExplainInstance`.
  - The two tokenizers are function parameters of `Tokenize`.
  - The trie's `parse_longest` result is an input (`matches`). Where its guarantees matter, `WellFormed` requires them: matches in order, not overlapping, inside the text.
- `load_custom_dict`, `load_stop_words`, the module-level pipeline set-up and the file loop of `process` (`open`, `tqdm`, writes) are left out: they are file I/O. `ProcessLine` models one pass of the loop body and returns the line it would write.
- `IndexedString` itself (splitting the text, building the vocabulary, `inverse_removing`) is LIME's code. The model takes its results as data (`IndexedText.IndexedString`). How `merge` constructs it from the sentence is a function parameter (`indexOf`) of `ProcessLine`.
- Reading the first field into "word:weight" pairs is a function parameter (`parseWeights`): the whitespace split of the field, the `':'` split of each item and the `float(...)` parsing all happen inside it. A malformed item, which raises in the source, is not modelled. Building the dict from those pairs is modelled (`DictOf`).
- `str.isalpha` and `str.isspace` are predicates passed in, since Unicode character classes are not modelled.
- Weights, scores and distances are exact reals; float32 rounding in the distance buffer and float comparison quirks are not modelled.
- ExplainInstance: requires the classifier to return one score pair per sample, which the source assumes; a classifier breaking that is not modelled.
- ExplainInstance: the target label is 0 or 1, so Python's negative indexing of the score pair is not modelled.
- ArgSort: NumPy's `argsort` is not stable by default, so the model proves only that some ascending argsort order is returned. `ExplainInstance` states its result for an existing such order rather than the one NumPy would pick among ties.
- `Merge` models the in-place `candidate.sort()` with the value-level `Sorting.SortBy`, which gives the same list.
- The `indices` list of `merge` is never read, and the warning prints of `merge` and the "Not Hit" print of `explain_instance` are console output; all three are left out.
- `text[pre_start:]` at the end of `split_sents` is modelled as the slice up to the text's end, which is the same string.
- `split_expression` and `mask_string` of the explainer only configure `IndexedString`, so they are not modelled. The default arguments (`ngram=1`, `threshold=0.5`, `label=1`) are not modelled either: the model's callers pass every value.
- `ProcessLine`: a line without a second field raises IndexError in the source; the model returns `None` for it.
- `keyword_mine.py` (the driver tying the explainer to a model) is not part of this model.
