/**
  The Indexer class (Indexer.py:44-161): build_index walks the documents of
  the bookkeeping file in order and, for each, records its word count, the
  bigram postings of its tokens and its anchor strings; afterwards the index
  is ordered by key.  Reading the bookkeeping file and the pages and the
  tokenizer `get_tokens` are outside the model: a document arrives as its id,
  its raw content and its (token, weight) list.
 */
module Indexing {
  import opened Text
  import opened Postings
  import opened Anchors
  import opened Wrappers
  import Refinement

  /** A bookkeeping entry with what was read for it: the id "folder/file",
      the page content, and the result of `get_tokens(content)`. */
  datatype Document = Document(id: string, content: string, tokens: seq<Token>)

  /** Indexer.py:158: the anchor strings of doc are stored in the entry of
      "anchor_words"; nothing else changes. */
  function StoreAnchors(idx: Index, doc: string, anchors: seq<string>): (r: Index)
    ensures AnchorKey in r && r[AnchorKey].docList == EntryAt(idx, AnchorKey).docList
    ensures doc in r[AnchorKey].anchorLists && r[AnchorKey].anchorLists[doc] == anchors
    ensures forall d :: d != doc && d in EntryAt(idx, AnchorKey).anchorLists ==>
              d in r[AnchorKey].anchorLists && r[AnchorKey].anchorLists[d] == EntryAt(idx, AnchorKey).anchorLists[d]
    ensures r[AnchorKey].anchorLists.Keys == EntryAt(idx, AnchorKey).anchorLists.Keys + {doc}
    ensures forall k :: k != AnchorKey ==> (k in r <==> k in idx) && EntryAt(r, k) == EntryAt(idx, k)
  {
    var e := EntryAt(idx, AnchorKey);
    idx[AnchorKey := e.(anchorLists := e.anchorLists[doc := anchors])]
  }

  /** The index after one document (Indexer.py:124-158). */
  function AfterDocument(idx: Index, d: Document): Index
  {
    StoreAnchors(Bigrams(idx, d.tokens, d.id, PairCount(d.tokens)), d.id, AnchorScan(SplitWhitespace(d.content)).0)
  }

  /** The index after the documents, in order. */
  function AfterDocuments(idx: Index, docs: seq<Document>): Index
    decreases |docs|
  {
    if docs == [] then idx
    else AfterDocument(AfterDocuments(idx, docs[..|docs| - 1]), docs[|docs| - 1])
  }

  /** `doc_word_counts` after the documents (Indexer.py:121). */
  function WordCounts(counts: map<string, nat>, docs: seq<Document>): map<string, nat>
    decreases |docs|
  {
    if docs == [] then counts
    else
      var last := docs[|docs| - 1];
      WordCounts(counts, docs[..|docs| - 1])[last.id := |last.tokens|]
  }

  /** Every document processed gets a count, and no other id does. */
  lemma {:induction false} WordCountsKeys(counts: map<string, nat>, docs: seq<Document>)
    ensures WordCounts(counts, docs).Keys == counts.Keys + DocIds(docs)
    decreases |docs|
  {
    if docs != [] {
      WordCountsKeys(counts, docs[..|docs| - 1]);
    }
  }

  /** The recorded count of a document is the number of its tokens, and of
      the last occurrence of its id when the bookkeeping order repeats it. */
  lemma {:induction false} WordCountOfLast(counts: map<string, nat>, docs: seq<Document>, i: nat)
    requires i < |docs|
    requires forall j :: i < j < |docs| ==> docs[j].id != docs[i].id
    ensures docs[i].id in WordCounts(counts, docs) && WordCounts(counts, docs)[docs[i].id] == |docs[i].tokens|
    decreases |docs|
  {
    var prefix := docs[..|docs| - 1];
    var last := docs[|docs| - 1];
    assert WordCounts(counts, docs) == WordCounts(counts, prefix)[last.id := |last.tokens|];
    if i < |docs| - 1 {
      assert prefix[i] == docs[i];
      assert last.id != docs[i].id;
      forall j | i < j < |prefix| ensures prefix[j].id != prefix[i].id {
        assert prefix[j] == docs[j];
      }
      WordCountOfLast(counts, prefix, i);
    }
  }

  /** The ids of the documents. */
  function DocIds(docs: seq<Document>): (r: set<string>)
    ensures forall i :: 0 <= i < |docs| ==> docs[i].id in r
    ensures forall x :: x in r ==> exists i :: 0 <= i < |docs| && docs[i].id == x
    ensures |r| <= |docs|
    decreases |docs|
  {
    if docs == [] then {}
    else
      var prefix := docs[..|docs| - 1];
      var r := DocIds(prefix) + {docs[|docs| - 1].id};
      assert forall i :: 0 <= i < |prefix| ==> prefix[i] == docs[i];
      r
  }

  /** `word_freq` and `total_words` (Indexer.py:116-120). */
  method WordFrequencies(tokens: seq<Token>) returns (freq: map<string, nat>, total: nat)
    ensures total == |tokens|
    ensures forall i :: 0 <= i < |tokens| ==> tokens[i].0 in freq
    ensures forall w :: w in freq ==> freq[w] == Occurrences(tokens, w) && freq[w] >= 1
  {
    freq, total := map[], 0;
    for i := 0 to |tokens|
      invariant total == i
      invariant forall j :: 0 <= j < i ==> tokens[j].0 in freq
      invariant forall w :: w in freq ==> freq[w] == Occurrences(tokens[..i], w) && freq[w] >= 1
    {
      var w := tokens[i].0;
      assert tokens[..i + 1][..i] == tokens[..i];
      assert tokens[..i + 1][i] == tokens[i];
      if w in freq {
        freq := freq[w := freq[w] + 1];
      } else {
        OccurrencesZero(tokens[..i], w);
        freq := freq[w := 1];
      }
      total := total + 1;
    }
    assert tokens[..|tokens|] == tokens;
  }

  /** The bigram loop of Indexer.py:150-156 for one document, given its
      `word_freq`. */
  method IndexBigrams(idx: Index, tokens: seq<Token>, doc: string, freq: map<string, nat>) returns (r: Index)
    requires forall i :: 0 <= i < |tokens| ==> tokens[i].0 in freq
    requires forall w :: w in freq ==> freq[w] == Occurrences(tokens, w)
    ensures r == Bigrams(idx, tokens, doc, PairCount(tokens))
  {
    r := idx;
    var i := 0;
    while i < |tokens| - 1
      invariant i <= PairCount(tokens)
      invariant r == Bigrams(idx, tokens, doc, i)
    {
      var key := tokens[i].0 + " " + tokens[i + 1].0;
      var e := if key in r then r[key] else NewEntry;
      var before := if doc in e.docList then e.docList[doc].weightedSum else 0;
      var tf := freq[tokens[i].0] + freq[tokens[i + 1].0];
      PairTfAtLeastTwo(tokens, i);
      var sum := before + tokens[i].1 + tokens[i + 1].1;
      assert key == PairKey(tokens, i) && tf == PairTf(tokens, i) && sum == before + PairWeight(tokens, i);
      r := r[key := e.(docList := e.docList[doc := Posting(tf, sum, Average(sum, tf))])];
      assert r == Bump(Bigrams(idx, tokens, doc, i), PairKey(tokens, i), doc, PairTf(tokens, i), PairWeight(tokens, i));
      i := i + 1;
    }
  }

  class Indexer {
    /** `inverted_index_2gram`. */
    var index: Index
    /** `doc_word_counts`. */
    var docWordCounts: map<string, nat>
    /** `total_docs`. */
    var totalDocs: nat

    /** The postings and anchor lists all belong to documents already counted. */
    ghost predicate Valid()
      reads this
    {
      WellFormed(index, docWordCounts.Keys)
    }

    /** Indexer.py:45-52, without the file names and the unused unigram index. */
    constructor()
      ensures index == map[] && docWordCounts == map[] && totalDocs == 0
      ensures Valid()
    {
      index := map[];
      docWordCounts := map[];
      totalDocs := 0;
    }

    /** The body of the loop of Indexer.py:109-158 for one document. */
    method AddDocument(d: Document)
      requires Valid()
      modifies this
      ensures Valid()
      ensures index == AfterDocument(old(index), d)
      ensures docWordCounts == old(docWordCounts)[d.id := |d.tokens|]
      ensures totalDocs == old(totalDocs)
    {
      var tokens := d.tokens;
      var freq, total := WordFrequencies(tokens);
      docWordCounts := docWordCounts[d.id := total];
      var anchors, missed := ExtractAnchors(d.content);
      WellFormedGrow(index, old(docWordCounts).Keys, docWordCounts.Keys);
      var idx := IndexBigrams(index, tokens, d.id, freq);
      BigramsWellFormed(index, docWordCounts.Keys, tokens, d.id, PairCount(tokens));
      StoreAnchorsWellFormed(idx, docWordCounts.Keys, d.id, anchors);
      var e := if AnchorKey in idx then idx[AnchorKey] else NewEntry;
      index := idx[AnchorKey := e.(anchorLists := e.anchorLists[d.id := anchors])];
    }

    /** build_index (Indexer.py:94-161) on the documents of the bookkeeping
        file, in its order: `total_docs` is their number, each document is
        added in turn, and the entries are returned ordered by key
        (`dict(sorted(...))`, Indexer.py:161). */
    method BuildIndex(docs: seq<Document>) returns (items: seq<(string, Entry)>)
      requires Valid()
      modifies this
      ensures Valid()
      ensures totalDocs == |docs|
      ensures index == AfterDocuments(old(index), docs)
      ensures docWordCounts == WordCounts(old(docWordCounts), docs)
      ensures ListsInOrder(index, items)
      // from a fresh Indexer every key but "anchor_words" has a document
      // frequency between 1 and total_docs, so the idf of calc_tf_idf_scores
      // is the logarithm of a ratio of at least 1
      ensures old(docWordCounts) == map[] ==>
                forall k :: k in index ==> (DocFreq(index[k]) == 0 <==> k == AnchorKey) && DocFreq(index[k]) <= totalDocs
    {
      ghost var counts0 := docWordCounts;
      totalDocs := |docs|;
      for j := 0 to |docs|
        invariant Valid()
        invariant totalDocs == |docs|
        invariant index == AfterDocuments(old(index), docs[..j])
        invariant docWordCounts == WordCounts(counts0, docs[..j])
      {
        ghost var before := index;
        ghost var countsBefore := docWordCounts;
        AddDocument(docs[j]);
        FoldStep(old(index), counts0, docs, j, before, countsBefore);
      }
      assert docs[..|docs|] == docs;
      items := SortedByKey(index);
      if counts0 == map[] {
        FreshDocFreq(index, docs);
      }
    }
  }

  // ---------------------------------------------------------------------
  // Properties of the index fold

  /** One more document extends both folds by one step. */
  lemma FoldStep(idx: Index, counts: map<string, nat>, docs: seq<Document>, j: nat,
                 before: Index, countsBefore: map<string, nat>)
    requires j < |docs|
    requires before == AfterDocuments(idx, docs[..j]) && countsBefore == WordCounts(counts, docs[..j])
    ensures AfterDocument(before, docs[j]) == AfterDocuments(idx, docs[..j + 1])
    ensures countsBefore[docs[j].id := |docs[j].tokens|] == WordCounts(counts, docs[..j + 1])
  {
    assert docs[..j + 1][..j] == docs[..j];
    assert docs[..j + 1][j] == docs[j];
  }

  /** Counting more documents as processed keeps the index well formed. */
  lemma WellFormedGrow(idx: Index, p: set<string>, q: set<string>)
    requires WellFormed(idx, p) && p <= q
    ensures WellFormed(idx, q)
  {
  }

  /** Indexing documents from scratch bounds every document frequency by
      the number of documents. */
  lemma FreshDocFreq(idx: Index, docs: seq<Document>)
    requires WellFormed(idx, WordCounts(map[], docs).Keys)
    ensures forall k :: k in idx ==> (DocFreq(idx[k]) == 0 <==> k == AnchorKey) && DocFreq(idx[k]) <= |docs|
  {
    WordCountsKeys(map[], docs);
    assert WordCounts(map[], docs).Keys == DocIds(docs);
    DocFreqWithin(idx, DocIds(docs), |docs|);
  }

  /** When no more documents were processed than n, no key's document
      frequency exceeds n, and only "anchor_words" has none. */
  lemma DocFreqWithin(idx: Index, processed: set<string>, n: nat)
    requires WellFormed(idx, processed) && |processed| <= n
    ensures forall k :: k in idx ==> (DocFreq(idx[k]) == 0 <==> k == AnchorKey) && DocFreq(idx[k]) <= n
  {
    forall k | k in idx ensures (DocFreq(idx[k]) == 0 <==> k == AnchorKey) && DocFreq(idx[k]) <= n {
      DocFreqBounds(idx, processed, k);
    }
  }

  lemma StoreAnchorsWellFormed(idx: Index, processed: set<string>, doc: string, anchors: seq<string>)
    requires WellFormed(idx, processed) && doc in processed
    ensures WellFormed(StoreAnchors(idx, doc, anchors), processed)
  {
    var r := StoreAnchors(idx, doc, anchors);
    assert r[AnchorKey].docList == map[];
    forall k | k in r && k != AnchorKey ensures r[k].docList != map[] && r[k].anchorLists == map[] {
      assert EntryAt(r, k) == EntryAt(idx, k);
    }
    forall k, d | k in r && d in r[k].docList ensures d in processed && ValidPosting(r[k].docList[d]) {
      if k != AnchorKey {
        assert EntryAt(r, k) == EntryAt(idx, k);
      }
    }
  }

  lemma AfterDocumentWellFormed(idx: Index, processed: set<string>, d: Document)
    requires WellFormed(idx, processed) && d.id in processed
    ensures WellFormed(AfterDocument(idx, d), processed)
  {
    BigramsWellFormed(idx, processed, d.tokens, d.id, PairCount(d.tokens));
    StoreAnchorsWellFormed(Bigrams(idx, d.tokens, d.id, PairCount(d.tokens)), processed, d.id,
                           AnchorScan(SplitWhitespace(d.content)).0);
  }

  /** Indexing documents keeps the index well formed with respect to the
      documents seen. */
  lemma {:induction false} AfterDocumentsWellFormed(idx: Index, processed: set<string>, docs: seq<Document>)
    requires WellFormed(idx, processed)
    ensures WellFormed(AfterDocuments(idx, docs), processed + DocIds(docs))
    decreases |docs|
  {
    if docs != [] {
      var prefix := docs[..|docs| - 1];
      AfterDocumentsWellFormed(idx, processed, prefix);
      WellFormedGrow(AfterDocuments(idx, prefix), processed + DocIds(prefix), processed + DocIds(docs));
      AfterDocumentWellFormed(AfterDocuments(idx, prefix), processed + DocIds(docs), docs[|docs| - 1]);
    }
  }

  /** A document leaves the postings and anchor lists of every other document as they were. */
  lemma DocumentFrame(idx: Index, d: Document, key: string, other: string)
    requires other != d.id
    ensures PostingAt(AfterDocument(idx, d), key, other) == PostingAt(idx, key, other)
    ensures var before := EntryAt(idx, AnchorKey).anchorLists;
            var after := EntryAt(AfterDocument(idx, d), AnchorKey).anchorLists;
            (other in after <==> other in before) && (other in before ==> other in after && after[other] == before[other])
  {
    var b := Bigrams(idx, d.tokens, d.id, PairCount(d.tokens));
    BigramsFrame(idx, d.tokens, d.id, PairCount(d.tokens), key);
    BigramsFrame(idx, d.tokens, d.id, PairCount(d.tokens), AnchorKey);
    if key == AnchorKey {
      assert EntryAt(b, AnchorKey).docList == EntryAt(AfterDocument(idx, d), AnchorKey).docList;
    } else {
      assert EntryAt(b, key) == EntryAt(AfterDocument(idx, d), key);
    }
  }

  /** For a document seen for the first time, its postings are exactly its
      bigrams, each with `tf >= 2` and the summed weight of its positions,
      and its anchor list is the anchor scan of its content. */
  lemma NewDocument(idx: Index, d: Document, key: string)
    requires PostingAt(idx, key, d.id) == None
    ensures var after := AfterDocument(idx, d);
            && (PostingAt(after, key, d.id).Some? <==> exists i :: 0 <= i < PairCount(d.tokens) && PairKey(d.tokens, i) == key)
            && (PostingAt(after, key, d.id).Some? ==>
                  PostingAt(after, key, d.id).value.tf >= 2 &&
                  PostingAt(after, key, d.id).value.weightedSum == WeightFor(d.tokens, key, PairCount(d.tokens)))
            && EntryAt(after, AnchorKey).anchorLists[d.id] == AnchorScan(SplitWhitespace(d.content)).0
  {
    var b := Bigrams(idx, d.tokens, d.id, PairCount(d.tokens));
    FreshDocument(idx, d.tokens, d.id, key);
    if key == AnchorKey {
      BigramsFrame(idx, d.tokens, d.id, PairCount(d.tokens), key);
      assert PostingAt(b, key, d.id) == PostingAt(AfterDocument(idx, d), key, d.id);
    } else {
      assert EntryAt(b, key) == EntryAt(AfterDocument(idx, d), key);
    }
  }

  // ---------------------------------------------------------------------
  // Tokens as get_tokens assembles them (Indexer.py:65-87)

  /** `[(word, weight) for word in tokens]`. */
  function Tagged(words: seq<string>, w: int): seq<Token>
  {
    seq(|words|, i requires 0 <= i < |words| => (words[i], w))
  }

  /** The token list of get_tokens: the lemmatized words of the title, b, h1,
      h2 and h3 text and then of the remaining text, each list passed through
      refine_tokens and tagged with its class's weight, in this order. The
      word lists themselves come from the HTML parser, the tokenizer, the
      stopword filter and the lemmatizer. */
  function AssembleTokens(title: seq<string>, bold: seq<string>, h1: seq<string>,
                          h2: seq<string>, h3: seq<string>, plain: seq<string>): seq<Token>
  {
    Tagged(Refinement.Refine(title), TitleWeight) + Tagged(Refinement.Refine(bold), BoldWeight)
    + Tagged(Refinement.Refine(h1), HeadingWeight) + Tagged(Refinement.Refine(h2), HeadingWeight)
    + Tagged(Refinement.Refine(h3), HeadingWeight) + Tagged(Refinement.Refine(plain), PlainWeight)
  }

  /** What every token of get_tokens satisfies: its word has only the letters
      'a'..'z', its weight is one of the table's. */
  predicate RefinedTokens(tokens: seq<Token>)
  {
    forall i :: 0 <= i < |tokens| ==> Refinement.AllAsciiLower(tokens[i].0) && ValidWeight(tokens[i].1)
  }

  lemma TaggedRefined(words: seq<string>, w: int)
    requires ValidWeight(w)
    ensures RefinedTokens(Tagged(Refinement.Refine(words), w))
  {
    Refinement.RefineLowercase(words);
  }

  lemma RefinedAppend(a: seq<Token>, b: seq<Token>)
    requires RefinedTokens(a) && RefinedTokens(b)
    ensures RefinedTokens(a + b)
  {
    forall i | 0 <= i < |a + b|
      ensures Refinement.AllAsciiLower((a + b)[i].0) && ValidWeight((a + b)[i].1)
    {
      if i >= |a| { assert (a + b)[i] == b[i - |a|]; }
    }
  }

  /** Every token list get_tokens assembles has refined words and table weights. */
  lemma AssembledTokensRefined(title: seq<string>, bold: seq<string>, h1: seq<string>,
                               h2: seq<string>, h3: seq<string>, plain: seq<string>)
    ensures RefinedTokens(AssembleTokens(title, bold, h1, h2, h3, plain))
  {
    var t := Tagged(Refinement.Refine(title), TitleWeight);
    var b := Tagged(Refinement.Refine(bold), BoldWeight);
    var x1 := Tagged(Refinement.Refine(h1), HeadingWeight);
    var x2 := Tagged(Refinement.Refine(h2), HeadingWeight);
    var x3 := Tagged(Refinement.Refine(h3), HeadingWeight);
    var p := Tagged(Refinement.Refine(plain), PlainWeight);
    TaggedRefined(title, TitleWeight);
    TaggedRefined(bold, BoldWeight);
    TaggedRefined(h1, HeadingWeight);
    TaggedRefined(h2, HeadingWeight);
    TaggedRefined(h3, HeadingWeight);
    TaggedRefined(plain, PlainWeight);
    RefinedAppend(t, b);
    RefinedAppend(t + b, x1);
    RefinedAppend(t + b + x1, x2);
    RefinedAppend(t + b + x1 + x2, x3);
    RefinedAppend(t + b + x1 + x2 + x3, p);
  }

  /** Refined words contain no space, so a bigram key splits back uniquely. */
  lemma RefinedSpaceFree(tokens: seq<Token>)
    requires RefinedTokens(tokens)
    ensures forall j :: 0 <= j < |tokens| ==> ' ' !in tokens[j].0
  {
    forall j | 0 <= j < |tokens| ensures ' ' !in tokens[j].0 {
      var w := tokens[j].0;
      assert Refinement.AllAsciiLower(w);
      assert forall k :: 0 <= k < |w| ==> w[k] != ' ';
    }
  }

  /** For a document with get_tokens' tokens, seen for the first time, the
      posting of a bigram it forms has the `tf` computed at any one of its
      occurrences, and a `weighted_sum` between 2.0 and 4.0 per occurrence. */
  lemma RefinedDocument(idx: Index, d: Document, key: string, i: nat)
    requires RefinedTokens(d.tokens)
    requires PostingAt(idx, key, d.id) == None
    requires i < PairCount(d.tokens) && PairKey(d.tokens, i) == key
    ensures var p := PostingAt(AfterDocument(idx, d), key, d.id);
            var count := FormedCount(d.tokens, key, PairCount(d.tokens));
            && p.Some? && p.value.tf == PairTf(d.tokens, i)
            && 2 * PlainWeight * count <= p.value.weightedSum <= 2 * TitleWeight * count
  {
    var n := PairCount(d.tokens);
    RefinedSpaceFree(d.tokens);
    TfSameAtEveryOccurrence(d.tokens, key, n, i);
    BigramsPosting(idx, d.tokens, d.id, n, key);
    WeightForBounds(d.tokens, key, n);
    PairKeyNotAnchorKey(d.tokens, i);
    var b := Bigrams(idx, d.tokens, d.id, n);
    assert EntryAt(b, key) == EntryAt(AfterDocument(idx, d), key);
  }

  /** A posting, once made, stays: later documents only add or update postings. */
  lemma PostingPersists(idx: Index, d: Document, key: string, doc: string)
    requires PostingAt(idx, key, doc).Some?
    ensures PostingAt(AfterDocument(idx, d), key, doc).Some?
  {
    if doc != d.id {
      DocumentFrame(idx, d, key, doc);
    } else {
      BigramsKeepPosting(idx, d.tokens, d.id, PairCount(d.tokens), key);
      var b := Bigrams(idx, d.tokens, d.id, PairCount(d.tokens));
      assert EntryAt(b, key).docList == EntryAt(AfterDocument(idx, d), key).docList;
    }
  }

  lemma {:induction false} BigramsKeepPosting(idx: Index, tokens: seq<Token>, doc: string, n: nat, key: string)
    requires n <= PairCount(tokens)
    requires PostingAt(idx, key, doc).Some?
    ensures PostingAt(Bigrams(idx, tokens, doc, n), key, doc).Some?
    decreases n
  {
    if n > 0 {
      BigramsKeepPosting(idx, tokens, doc, n - 1, key);
    }
  }

  /** Every adjacent pair of every indexed document ends up in the index with
      a posting for that document. */
  lemma {:induction false} EveryBigramIndexed(idx: Index, docs: seq<Document>, j: nat, i: nat)
    requires j < |docs| && i < PairCount(docs[j].tokens)
    ensures PostingAt(AfterDocuments(idx, docs), PairKey(docs[j].tokens, i), docs[j].id).Some?
    decreases |docs|
  {
    var prefix := docs[..|docs| - 1];
    var last := docs[|docs| - 1];
    var key := PairKey(docs[j].tokens, i);
    if j < |docs| - 1 {
      assert prefix[j] == docs[j];
      EveryBigramIndexed(idx, prefix, j, i);
      PostingPersists(AfterDocuments(idx, prefix), last, key, docs[j].id);
    } else {
      var before := AfterDocuments(idx, prefix);
      var n := PairCount(last.tokens);
      FormedIff(last.tokens, key, n);
      BigramsPosting(before, last.tokens, last.id, n, key);
      assert PostingAt(Bigrams(before, last.tokens, last.id, n), key, last.id).Some?;
      PairKeyNotAnchorKey(last.tokens, i);
      assert EntryAt(Bigrams(before, last.tokens, last.id, n), key) == EntryAt(AfterDocument(before, last), key);
    }
  }
}
