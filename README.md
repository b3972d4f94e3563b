# search_engine: a Dafny model of the bigram indexer and the query engine

search_engine builds an inverted index over a corpus of crawled web pages and
then answers queries from it. Every document in the bookkeeping file has an id
of the form `folder/file`.

**Indexer.** For each document the Indexer:

- tokenizes the page into (word, weight) pairs;
- counts the raw frequency of every word;
- for every adjacent pair of tokens, records a posting of the bigram `"w1 w2"`
  for that document. A posting holds `tf`, `weighted_sum` and
  `weighted_average`;
- collects the document's anchor strings from the pieces of raw content that
  contain `href`.

After the last document, every bigram's document frequency feeds an idf score,
and the index is sorted by key.

**Retriever.** The Retriever loads the index. For each query term, it collects
the (document, rank) Links of every key that contains the term as a substring.
The rank is the integer part of the weighted average plus the integer part of
the tf-idf. The Retriever then:

1. intersects the Link sets of the first and the last key of `query_dict`, that is, of the first and the last term that collects any Link, with terms ordered by first appearance;
2. sorts the result by descending rank;
3. keeps one Link per document.

**Modules of the model.**

| module | contents |
|---|---|
| `Text` (`text.dfy`) | The Python string operations the core relies on: `in`, `str.index`, slicing with negative bounds, `str.split()`, ASCII `lower()`, string order. Also the sort of a dict's items by key. |
| `Refinement` (`refinement.dfy`) | `refine_tokens`. |
| `Anchors` (`anchors.dfy`) | Anchor extraction in `build_index`. |
| `Postings` (`postings.dfy`) | The bigram posting updates, and the shape of the index. |
| `Indexing` (`indexing.dfy`) | The `Indexer` class: `build_index` document by document, then the key sort and the document frequencies used by `calc_tf_idf_scores`. |
| `Retrieval` (`retrieval.dfy`) | The `Retriever` class and `search_query`. |
| `Wrappers` (`wrappers.dfy`) | `Option` and `Result`. |

**Weights.** Token weights are integers counted in tenths: title 20, bold 15,
h1/h2/h3 12, plain text 10. Because of this, `weighted_sum` is exact and
`weighted_average` is the exact rational `weighted_sum / tf`.

## Model

| member | source | states |
|---|---|---|
| Text.Lower | Indexer.py:209 | `c.lower()` on ASCII: 'A'..'Z' become 'a'..'z' (code point plus 32); every other character is unchanged. |
| Text.IsSpace | Indexer.py:126 | The whitespace `str.split()` splits on: space, `\t`, `\n`, `\v`, `\f`, `\r`, the separators `\x1c`..`\x1f`, `\x85`, and the Unicode spaces. |
| Text.Less | Indexer.py:161 | Python's `<` on strings: code-point lexicographic, and a proper prefix comes first. |
| Text.IsLetter | Indexer.py:209-210 | The test `97 <= ord(c.lower()) <= 122`: `c` is an ASCII letter of either case. |
| Text.SliceBound | Indexer.py:131-136 | Python's normalisation of a slice bound: a negative bound counts from the end, and the result is clamped to the length. This is what gives `second = -1` and `second = -2` their meaning. |
| Text.Contains | Retriever.py:26 | `t in s` holds exactly when `t` occurs in `s` at some position. |
| Text.IndexOf | Indexer.py:129 | `s.index(c)` is the first position holding `c`. No earlier position holds `c`. The result is `len(s)`, standing for the ValueError, exactly when `c` does not occur. |
| Text.PySlice | Indexer.py:136 | `s[a:b]` with Python's clamping and negative bounds: inside the bounds it is the ordinary slice; otherwise it is the substring between the clamped bounds, or empty when they cross. |
| Text.LowerAll | Indexer.py:209-211 | ASCII `lower()` keeps the length and lowers each character in place. |
| Text.RunLength | Indexer.py:126 | The first field of `str.split()` reaches up to the first whitespace. |
| Text.Fields | Indexer.py:126 | `str.split()` yields only non-empty pieces without whitespace, and at least one piece when the content ends in a non-space. |
| Text.FieldsConcat | Indexer.py:126 | Joining the pieces of `str.split()` gives the content with all whitespace removed: nothing but separators is lost. |
| Text.FieldsOfRun | Indexer.py:126 | A separator-free non-empty string splits into itself alone. |
| Text.FieldsAfterSeparator | Indexer.py:126 | Splitting `x + sep + t` yields `x` (when non-empty) followed by the split of `t`. |
| Text.LessTotal | Indexer.py:161 | Python's string order, used by `sorted`, relates any two distinct strings. |
| Text.LessTransitive | Indexer.py:161 | The string order is transitive. |
| Text.LessIrreflexive | Indexer.py:161 | The string order is strict. |
| Text.MinKey | Indexer.py:161 | A non-empty key set has a key below all the others. This key is what `sorted` places first. |
| Text.SortedByKey | Indexer.py:161 | `sorted(d.items())` lists every key of `d` once, with its value, in strictly ascending key order (`ListsInOrder`). |
| Refinement.Scan | Indexer.py:208-215 | The character loop of one word: a letter extends `cur`; a non-letter emits a non-empty `cur` and resets it. |
| Refinement.WordScan | Indexer.py:206-215 | The character scan of one word, starting from `cur = ""`: the runs it closes and the final `cur`. |
| Refinement.WordOutput | Indexer.py:206-219 | What one word appends to `res`: the runs the character loop closes, then its final `cur`, unconditionally. |
| Refinement.Body | Indexer.py:205-219 | `res` after the outer loop: the word outputs, word after word. |
| Refinement.FinalRun | Indexer.py:221 | `cur` after the outer loop: the last word's final run, empty for no words. |
| Refinement.Refine | Indexer.py:201-224 | The whole function: each word's scan output followed by its final `cur`, and once more the last `cur` when it is non-empty. |
| Refinement.RefineTokens | Indexer.py:194-224 | The loop as written computes `Refine(words)`; an empty word list gives an empty result. |
| Refinement.ScanRuns | Indexer.py:208-215 | The character loop emits the maximal runs of ASCII lowercase letters of the lowered word, in order; the last run stays in `cur`. |
| Refinement.WordOutputRuns | Indexer.py:205-219 | Per word: the output is every maximal letter run of the lowered word, closed by the final `cur`. That run is empty unless the word ends in a letter. |
| Refinement.BodyRuns | Indexer.py:205-219 | The outer loop concatenates the per-word outputs, in order. |
| Refinement.RefineIsRuns | Indexer.py:205-222 | The result is the per-word runs of all words, plus one more copy of the last word's final run when that word ends in a letter. |
| Refinement.FinalRunTwice | Indexer.py:219-222 | When the last word ends in a letter, its final run is both the last and the second-to-last token of the result. |
| Refinement.RunsOfWordsLower | Indexer.py:210-211 | Every per-word run consists of ASCII lowercase letters only. |
| Refinement.RefineLowercase | Indexer.py:208-222 | Every token `refine_tokens` returns consists of ASCII lowercase letters only. |
| Anchors.SplitWhitespace | Indexer.py:126 | `content.split()`: the pieces between runs of whitespace. |
| Anchors.AnchorStop | Indexer.py:130-135 | `second`: one before the first `>` if there is one; else -2 if a quote follows the start; else the piece's length. |
| Anchors.AnchorOf | Indexer.py:128-138 | One piece gives an anchor exactly when it contains `=`; otherwise it is the ValueError that the bare `except` counts. |
| Anchors.AnchorPosition | Indexer.py:129-136 | Where the anchor starts and ends, and when it is empty. It starts two characters past the first `=`. With a `>` after the first character, it ends one character before that `>`. With a `>` as the first character (`second = -1`), it ends one character before the end of the piece. Without `>` but with a quote after the start, it ends two characters before the end. Otherwise it runs to the end. In each case the anchor is empty exactly when its start is not before its end. |
| Anchors.AnchorScan | Indexer.py:126-138 | The loop over the pieces of `content.split()`, one piece after another: `(anchor_words, anchor_words_missed)`. |
| Anchors.ScanPiece | Indexer.py:127-138 | One piece: skipped without `href`; otherwise its anchor is appended or, without `=`, the missed counter is increased. |
| Anchors.ExtractAnchors | Indexer.py:124-138 | The loop as written computes `AnchorScan` of `content.split()`, and never fails. |
| Anchors.AnchorAccounting | Indexer.py:126-138 | `anchor_words_missed` counts the `href` pieces without `=`. Anchors plus misses together number the `href` pieces. |
| Anchors.AnchorScanAppend | Indexer.py:126-138 | Pieces are handled independently and in order: scanning two runs of pieces concatenates their anchors and adds their misses. |
| Postings.Occurrences | Indexer.py:117-118 | `word_freq[w]`: the number of tokens whose word is `w`. |
| Postings.PairCount | Indexer.py:150 | The number of iterations of `range(len(tokens) - 1)`: one less than the token count, and 0 for no tokens. |
| Postings.PairKey | Indexer.py:151 | The key of pair `i`: `tokens[i][0] + " " + tokens[i+1][0]`. |
| Postings.PairTf | Indexer.py:152 | The `tf` assigned at pair `i`: the frequencies of its two words added. |
| Postings.PairWeight | Indexer.py:155 | The weight pair `i` adds to `weighted_sum`: the weights of its two tokens added. |
| Postings.Average | Indexer.py:156 | `weighted_sum / tf`, with the sum in tenths, as an exact rational. |
| Postings.NewEntry | Indexer.py:49 | What the default factory creates for a missing key: an empty "doc_list" and no anchor lists. |
| Postings.OccursOnce | Indexer.py:117-118 | The word of every token has frequency at least 1. |
| Postings.OccurrencesZero | Indexer.py:117-118 | A word that no token carries has frequency 0. |
| Postings.PairTfAtLeastTwo | Indexer.py:152 | The `tf` assigned to a bigram posting is at least 2. |
| Postings.FormedIff | Indexer.py:150-151 | A key is touched by the first `n` pair updates exactly when one of the first `n` pairs spells it. |
| Postings.BigramsFrame | Indexer.py:150-156 | The pair loop for one document changes no other document's posting and no anchor list. A key is in the index afterwards exactly when it was before or some pair spells it. |
| Postings.EntryAt | Indexer.py:151 | `inverted_index_2gram[key]` with the default factory: the stored entry, or a new empty one. |
| Postings.BaseSum | Indexer.py:155 | `entry.get("weighted_sum", 0)`: the existing posting's weighted sum, or 0. |
| Postings.Bump | Indexer.py:151-156 | One pair update: the entry and posting are created if missing, `tf` is assigned, the weight is added to `weighted_sum` (from 0 when new), and the average is recomputed. |
| Postings.Bigrams | Indexer.py:150-156 | The first `n` iterations of the pair loop of one document, in order. |
| Postings.BumpPosting | Indexer.py:151-156 | One pair update sets the posting's `tf`, increases `weighted_sum` by the pair's weight and stores the new average. Every other key is unchanged. |
| Postings.BigramsPosting | Indexer.py:150-156 | After the pair loop, a bigram the document forms has `tf` equal to the value assigned at its last occurrence (at least 2). Its `weighted_sum` is the sum before the loop plus the weights of all its occurrences. Its average is that sum over `tf`. An unformed bigram's posting is untouched. |
| Postings.UnformedWeightZero | Indexer.py:155 | A bigram no pair forms accumulates no weight. |
| Postings.FreshDocument | Indexer.py:150-156 | For a document without a previous posting, it has a posting exactly for the bigrams it forms, each with `tf >= 2` and `weighted_sum` the total weight of its occurrences. With fewer than two tokens the index is unchanged. |
| Postings.TfSameAtEveryOccurrence | Indexer.py:152 | With space-free words, every occurrence of a bigram in a document is assigned the same `tf`, so "last write wins" loses nothing. |
| Postings.LastTfAgrees | Indexer.py:152 | The `tf` of the last occurrence equals that of any occurrence, for space-free words. |
| Postings.JoinedUnique | Indexer.py:151 | With space-free first words, the key `w1 + " " + w2` determines both words. |
| Postings.PairKeyNotAnchorKey | Indexer.py:151 | No bigram key is `"anchor_words"`: the joined key contains a space and that key does not. |
| Postings.BigramsWellFormed | Indexer.py:150-156 | The pair loop keeps the index well formed: every posting belongs to a processed document, has `tf >= 2` and stores its exact average; `"anchor_words"` has no postings. |
| Postings.BumpWellFormed | Indexer.py:151-156 | A single bigram update keeps the index well formed. |
| Postings.ValidWeight | Indexer.py:34-40 | The weights `get_tokens` attaches, in tenths: `TitleWeight` 20, `BoldWeight` 15, `HeadingWeight` 12 (h1, h2, h3) from the `weights` table, and `PlainWeight` 10 for plain text (the 1.0 of Indexer.py:87). |
| Postings.WeightForBounds | Indexer.py:150-156 | With the table's weights, each occurrence of a bigram adds between 2.0 and 4.0 to `weighted_sum`: the total lies between 20 and 40 tenths times the number of occurrences. |
| Postings.FormedCountPositive | Indexer.py:150-151 | A bigram is touched by the loop exactly when it occurs at least once. |
| Postings.DocFreq | Indexer.py:184 | `len(data['doc_list'])`: the number of documents with a posting under the key. |
| Postings.DocFreqBounds | Indexer.py:183-188 | In a well-formed index, `len(doc_list)` is 0 exactly for `"anchor_words"`, where the ZeroDivisionError arises, and never exceeds the number of processed documents. |
| Postings.SubsetCard | Indexer.py:184 | A subset is no larger than its superset; this bounds `len(doc_list)`. |
| Indexing.AfterDocument | Indexer.py:114-158 | The index after one document: its pair loop, then its anchor list stored under `"anchor_words"`. |
| Indexing.AfterDocuments | Indexer.py:105-158 | The index after the documents, one after another in bookkeeping order. |
| Indexing.WordCounts | Indexer.py:121 | `doc_word_counts` after the documents: each document in turn sets its id's count to its token count. |
| Indexing.StoreAnchors | Indexer.py:158 | Storing the anchors writes exactly the entry of `doc` inside `"anchor_words"`: the "doc_list" of that key, the other documents' anchor lists and every other key are unchanged. |
| Indexing.DocIds | Indexer.py:105 | The set of document ids holds exactly the documents' ids and has no more elements than there are documents. |
| Indexing.WordCountsKeys | Indexer.py:121 | After the loop, `doc_word_counts` has a count for exactly the old ids and the processed ids. |
| Indexing.WordCountOfLast | Indexer.py:121 | The count stored for an id is the token count of its last occurrence in the bookkeeping order. |
| Indexing.WordFrequencies | Indexer.py:114-120 | `word_freq[w]` is the number of tokens carrying `w`, at least 1 for every token's word; `total_words` is the number of tokens. |
| Indexing.IndexBigrams | Indexer.py:150-156 | The pair loop as written computes `Bigrams`, given the frequencies computed from the same tokens. |
| Indexing.Tagged | Indexer.py:73 | `[(word, weight) for word in tokens]`: one token per word, in order, each with the given weight. |
| Indexing.AssembleTokens | Indexer.py:65-87 | The token list of `get_tokens`: for title, b, h1, h2, h3 and then plain text, the refined words tagged with that class's weight. |
| Indexing.TaggedRefined | Indexer.py:72-73 | A refined word list tagged with a table weight consists of refined tokens. |
| Indexing.RefinedAppend | Indexer.py:73 | `res.extend` keeps every token refined. |
| Indexing.AssembledTokensRefined | Indexer.py:65-89 | Every token list `get_tokens` assembles has words of 'a'..'z' only, and weights from the table. |
| Indexing.RefinedSpaceFree | Indexer.py:151 | Refined words contain no space, so the space-free premise of `TfSameAtEveryOccurrence` holds for them. |
| Indexing.RefinedDocument | Indexer.py:150-156 | For a new document with such tokens, the posting of a bigram it forms has the `tf` computed at any one of its occurrences. Its `weighted_sum` lies between 2.0 and 4.0 per occurrence. |
| Indexing.Indexer.constructor | Indexer.py:45-52 | A new Indexer has an empty index, no word counts and `total_docs` 0. |
| Indexing.Indexer.AddDocument | Indexer.py:109-158 | Processing one document stores its word count, applies the pair loop and stores its anchors. The index stays well formed. |
| Indexing.Indexer.BuildIndex | Indexer.py:98-161 | `build_index` sets `total_docs`, processes the documents in order and keeps the index well formed. It returns the items sorted by key. From a fresh Indexer, every key's document frequency is 0 exactly for `"anchor_words"` and at most `total_docs`. |
| Indexing.FoldStep | Indexer.py:105-158 | One iteration of the document loop advances both the index and the word counts by one document. |
| Indexing.WellFormedGrow | Indexer.py:105 | Processing more documents never makes a well-formed index ill formed. |
| Indexing.FreshDocFreq | Indexer.py:183-188 | After indexing a document list from scratch, every document frequency lies within the number of documents and is 0 exactly for `"anchor_words"`. |
| Indexing.DocFreqWithin | Indexer.py:183-188 | Document frequencies are bounded by any bound on the processed documents. |
| Indexing.StoreAnchorsWellFormed | Indexer.py:158 | Storing anchors keeps the index well formed. |
| Indexing.AfterDocumentWellFormed | Indexer.py:114-158 | Processing one document keeps the index well formed. |
| Indexing.AfterDocumentsWellFormed | Indexer.py:105-158 | Processing any list of documents keeps the index well formed, over the enlarged set of processed ids. |
| Indexing.DocumentFrame | Indexer.py:150-158 | Processing a document changes no other document's postings or anchor list. |
| Indexing.NewDocument | Indexer.py:124-158 | A newly processed document gets a posting exactly for the bigrams it forms, each with `tf >= 2` and the total weight of its occurrences. Its anchor list is the one `ExtractAnchors` computes from its content. |
| Indexing.PostingPersists | Indexer.py:150-158 | No posting is ever removed by processing a document. |
| Indexing.BigramsKeepPosting | Indexer.py:150-156 | The pair loop never removes a posting. |
| Indexing.EveryBigramIndexed | Indexer.py:105-158 | After `build_index`, every bigram formed by any document has a posting for that document. |
| Retrieval.MatchSetMembers | Retriever.py:24-31 | A Link is in a term's match set exactly when some key contains the term as a substring and has a posting for that document with that rank. |
| Retrieval.MatchInStep | Retriever.py:25-31 | Visiting one more key adds exactly its Links when the term is a substring of it, and nothing otherwise. |
| Retrieval.LinksAmongStep | Retriever.py:28-31 | Visiting one more posting adds exactly its Link. |
| Retrieval.MatchSet | Retriever.py:24-31 | `query_dict[query]`: the Links of every posting of every key that contains the term. |
| Retrieval.KeyLinks | Retriever.py:28-31 | The loop over a key's postings collects exactly that key's Links. |
| Retrieval.CollectMatches | Retriever.py:25-31 | The loop over the keys collects exactly the term's match set. |
| Retrieval.PresentTerms | Retriever.py:21-31 | The keys of `query_dict`, in insertion order, are the distinct terms with a non-empty match set. |
| Retrieval.UnmatchedTermIgnored | Retriever.py:24-33 | A term that matches nothing leaves `query_dict` as if it had not been asked. |
| Retrieval.MatchTerms | Retriever.py:21-31 | The outer loop builds `query_dict`: its keys, in insertion order, are the present terms, each mapped to its match set. |
| Retrieval.SetToSeq | Retriever.py:40 | `list(set(res))` has exactly the elements of the set, each once. |
| Retrieval.Intersect | Retriever.py:33-36 | After the loop, `res` holds exactly the Links in both the first and the last set of `query_dict` (keys in order of first insertion), each once. |
| Retrieval.InsertByRank | Retriever.py:42 | Inserting into a rank-descending list keeps it rank-descending and adds exactly the new element. |
| Retrieval.SortByRank | Retriever.py:42 | The sort by `rank_id`, reversed, gives a rank-descending permutation of its input. |
| Retrieval.LinkIdsSnoc | Retriever.py:49 | The set `temp` of seen doc ids grows by exactly one element's doc id. |
| Retrieval.DedupSnoc | Retriever.py:47-52 | Each step of the while loop keeps the element exactly when its doc id was not seen before it. |
| Retrieval.Dedup | Retriever.py:45-52 | The loop's result, element by element: an element stays exactly when no earlier element has its doc id. |
| Retrieval.DedupByLink | Retriever.py:45-52 | The in-place `pop` loop as written computes `Dedup`: the first occurrence of each doc id, in order. |
| Retrieval.DedupUnique | Retriever.py:45-52 | After the loop, no two elements share a doc id. |
| Retrieval.DedupSubset | Retriever.py:45-52 | The loop only removes elements. |
| Retrieval.DedupIds | Retriever.py:45-52 | Every doc id of the input survives the loop. |
| Retrieval.DedupSubsequence | Retriever.py:45-52 | The loop keeps the survivors in their original order. |
| Retrieval.DedupDescending | Retriever.py:42-52 | A rank-descending list stays rank-descending. |
| Retrieval.DescendingSnoc | Retriever.py:42 | Appending an element ranked no higher than the rest keeps a list rank-descending. |
| Retrieval.DedupHighest | Retriever.py:42-52 | On a rank-descending list, the surviving Link of each doc id has that doc id's highest rank. |
| Retrieval.DedupOfCandidates | Retriever.py:42-52 | On a sorted listing of a set, the survivors belong to the set, have distinct doc ids and are rank-descending. Every element of the set is represented by a survivor with its doc id and at least its rank. |
| Retrieval.SameElements | Retriever.py:42 | Sorting does not change which Links are present. |
| Retrieval.PresentTermsEmpty | Retriever.py:33 | `query_dict` is empty exactly when no term collects any Link. |
| Retrieval.Candidates | Retriever.py:33-36 | What the intersection loop keeps: the Links in both the set of the first key and the set of the last key of `query_dict`, whose keys are the terms that collect a Link, in order of first appearance (`PresentTerms`). |
| Retrieval.Retriever.constructor | Retriever.py:12-15 | The Retriever holds the loaded index. |
| Retrieval.Retriever.SearchQuery | Retriever.py:20-56 | `search_query` raises the IndexError exactly when no term collects any Link. Otherwise it returns distinct-doc Links in descending rank: each is in the sets of both the first and the last key of `query_dict` (`PresentTerms`), and every document of that intersection appears at its highest rank there. |

## Left out

- `get_tokens` (Indexer.py:54-89): the HTML parser, the tokenizer, the stopword filter and the lemmatizer are left out. The per-class word lists they produce are inputs of `Indexing.AssembleTokens`, which keeps the rest: `refine_tokens` on each list, the weights of the table, and the class order.
- Indexing.Document: a document's `(token, weight)` list is an arbitrary input. `Indexer.AddDocument` and `Indexer.BuildIndex` do not require it to come from `AssembleTokens`. The facts that hold only for such lists (space-free words, per-occurrence weight bounds) are stated separately by `AssembledTokensRefined` and `RefinedDocument` for lists satisfying `RefinedTokens`.
- Indexer.py lines 99-112: reading the bookkeeping JSON, parsing `folder/file` with `int(...)` and opening the files are I/O. A document arrives as its id, its content and its tokens.
- Retriever.py lines 12-18: loading the index and the bookkeeping file from JSON is I/O. `Retriever.constructor` takes the loaded index.
- `write_index` and `print_urls`: output only.
- The timing measurement and `print` in `search_query`: output only.
- Indexing.Indexer.BuildIndex: leaves out the `math.log` and `round(...)` of `calc_tf_idf_scores`, because they are floating point. It proves the document-frequency facts that decide whether the idf is defined.
- Query ranks: each rank `int(weighted_average) + int(tf_idf)` is taken as an integer input. The floating-point truncation, and the link from `Index` to the index the Retriever loads, are not modelled.
- Weighted averages: `round(weighted_sum / tf, 4)` is stored as the exact rational. Rounding to four decimal places is floating point.
- Refinement.RefineTokens: treats every non-ASCII character as a non-letter. Python's `lower()` on non-ASCII characters is not modelled: the Kelvin sign lowers to `k`, and some characters lower to two. The `except Exception` branch (Indexer.py:216-218) is not modelled either. It is reached when `ord(c.lower())` fails on a character whose lowercase is two characters (U+0130), but `get_tokens` lowers every word before calling `refine_tokens` (Indexer.py:72, 85), so no such character reaches it from the indexer, and the Kelvin sign has already become `k`.
- The commented-out unigram index (Indexer.py:140-147 and 170-180) is dead code.
- Retrieval.SortByRank: proves a descending permutation but not that Python's sort is stable. The order among equal ranks is left open, and `DedupHighest` does not depend on it.
- Retrieval.SetToSeq: `list(set(...))` comes out in an arbitrary order, modelled by an arbitrary choice at each step.
- Retrieval.Retriever.SearchQuery: `"anchor_words"` is part of the loaded index. Its anchor lists are not doc-id postings, so it is treated like any other key, through its (empty) "doc_list".

### Quirks of the code as written

The model keeps each of these behaviours of the code.

- `refine_tokens` appends the final run of every word once (Indexer.py:219), and that run is the empty string when the word does not end in a letter. After the loop, the last word's final run, when non-empty, is appended a second time (Indexer.py:221-222). See `RefineIsRuns` and `FinalRunTwice`.
- The comment at Retriever.py:36 says the loop returns the doc ids containing all the words. The loop overwrites `res` on every iteration, so the result is the intersection of only the Link sets of the first and the last key of `query_dict`, compared as whole `(doc, rank)` pairs. Those keys are the terms that collect a Link, in order of first appearance (`PresentTerms`): a repeated term counts at its first position. See `Intersect` and `SearchQuery`.
- A term that collects no Link never enters `query_dict`, so it is ignored rather than emptying the result. See `UnmatchedTermIgnored`.
- An empty query, or a query none of whose terms collects a Link, raises `IndexError` at Retriever.py:33. This is `SearchQuery`'s `Failure`.
