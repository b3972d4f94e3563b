/**
  The per-document part of build_index (Indexer.py:114-156): raw token
  frequencies, and for every adjacent pair of tokens one update of the
  posting of the bigram "t_i t_{i+1}" for the document, where `tf` is
  ASSIGNED the sum of the two tokens' frequencies and `weighted_sum` is
  INCREASED by the sum of their weights.
 */
module Postings {
  import opened Wrappers

  /** Token weights in tenths, in the order of the `weights` table
      (Indexer.py:34-40), and the weight of plain text (Indexer.py:87). */
  const TitleWeight: int := 20
  const BoldWeight: int := 15
  const HeadingWeight: int := 12
  const PlainWeight: int := 10

  /** A token of a document and its weight, in tenths. */
  type Token = (string, int)

  /** The fields of a posting: `tf`, `weighted_sum` (in tenths) and
      `weighted_average`. */
  datatype Posting = Posting(tf: int, weightedSum: int, weightedAverage: real)

  /** The value stored under an index key: its "doc_list", and the doc-id
      keyed anchor lists that Indexer.py:158 stores beside "doc_list" in the
      entry of the key "anchor_words". */
  datatype Entry = Entry(docList: map<string, Posting>, anchorLists: map<string, seq<string>>)

  type Index = map<string, Entry>

  const AnchorKey: string := "anchor_words"

  /** What the default factory of Indexer.py:49 creates for a missing key. */
  const NewEntry: Entry := Entry(map[], map[])

  function EntryAt(idx: Index, key: string): Entry
  {
    if key in idx then idx[key] else NewEntry
  }

  function PostingAt(idx: Index, key: string, doc: string): Option<Posting>
  {
    var e := EntryAt(idx, key);
    if doc in e.docList then Some(e.docList[doc]) else None
  }

  /** `weighted_sum / tf` (Indexer.py:156) with the sum in tenths; the
      rounding to 4 places is not modelled. */
  function Average(sum: int, tf: int): real
    requires tf != 0
  {
    (sum as real / 10.0) / (tf as real)
  }

  // ---------------------------------------------------------------------
  // Frequencies

  /** `word_freq[w]` after Indexer.py:117-118: how many tokens are w. */
  function Occurrences(tokens: seq<Token>, w: string): nat
    decreases |tokens|
  {
    if tokens == [] then 0
    else Occurrences(tokens[..|tokens| - 1], w) + (if tokens[|tokens| - 1].0 == w then 1 else 0)
  }

  lemma {:induction false} OccursOnce(tokens: seq<Token>, i: nat)
    requires i < |tokens|
    ensures Occurrences(tokens, tokens[i].0) >= 1
    decreases |tokens|
  {
    if i < |tokens| - 1 {
      OccursOnce(tokens[..|tokens| - 1], i);
    }
  }

  lemma {:induction false} OccurrencesZero(tokens: seq<Token>, w: string)
    requires forall i :: 0 <= i < |tokens| ==> tokens[i].0 != w
    ensures Occurrences(tokens, w) == 0
    decreases |tokens|
  {
    if tokens != [] {
      OccurrencesZero(tokens[..|tokens| - 1], w);
    }
  }

  // ---------------------------------------------------------------------
  // Pairs

  /** The number of iterations of `range(len(tokens) - 1)`. */
  function PairCount(tokens: seq<Token>): nat
  {
    if |tokens| == 0 then 0 else |tokens| - 1
  }

  /** The key of position i: `tokens[i][0] + " " + tokens[i+1][0]`. */
  function PairKey(tokens: seq<Token>, i: nat): string
    requires i + 1 < |tokens|
  {
    tokens[i].0 + " " + tokens[i + 1].0
  }

  /** The `tf` assigned at position i (Indexer.py:152). */
  function PairTf(tokens: seq<Token>, i: nat): int
    requires i + 1 < |tokens|
  {
    Occurrences(tokens, tokens[i].0) + Occurrences(tokens, tokens[i + 1].0)
  }

  /** The weight added at position i (Indexer.py:155). */
  function PairWeight(tokens: seq<Token>, i: nat): int
    requires i + 1 < |tokens|
  {
    tokens[i].1 + tokens[i + 1].1
  }

  lemma PairTfAtLeastTwo(tokens: seq<Token>, i: nat)
    requires i + 1 < |tokens|
    ensures PairTf(tokens, i) >= 2
  {
    OccursOnce(tokens, i);
    OccursOnce(tokens, i + 1);
  }

  /** One iteration of Indexer.py:150-156: fetch or create the entry and the
      posting, assign `tf`, add to `weighted_sum`, recompute the average. */
  function Bump(idx: Index, key: string, doc: string, tf: int, weight: int): Index
    requires tf != 0
  {
    var e := EntryAt(idx, key);
    var before := if doc in e.docList then e.docList[doc].weightedSum else 0;
    var sum := before + weight;
    idx[key := e.(docList := e.docList[doc := Posting(tf, sum, Average(sum, tf))])]
  }

  /** The index after the first n iterations of the bigram loop for `doc`. */
  function Bigrams(idx: Index, tokens: seq<Token>, doc: string, n: nat): Index
    requires n <= PairCount(tokens)
    decreases n
  {
    if n == 0 then idx
    else
      PairTfAtLeastTwo(tokens, n - 1);
      Bump(Bigrams(idx, tokens, doc, n - 1), PairKey(tokens, n - 1), doc,
           PairTf(tokens, n - 1), PairWeight(tokens, n - 1))
  }

  // ---------------------------------------------------------------------
  // What the loop does to one key

  /** Some position below n forms key. */
  function Formed(tokens: seq<Token>, key: string, n: nat): bool
    requires n <= PairCount(tokens)
  {
    n > 0 && (PairKey(tokens, n - 1) == key || Formed(tokens, key, n - 1))
  }

  lemma {:induction false} FormedIff(tokens: seq<Token>, key: string, n: nat)
    requires n <= PairCount(tokens)
    ensures Formed(tokens, key, n) <==> exists i :: 0 <= i < n && PairKey(tokens, i) == key
  {
    if n > 0 {
      FormedIff(tokens, key, n - 1);
    }
  }

  /** The sum of `w_i + w_{i+1}` over the positions below n that form key. */
  function WeightFor(tokens: seq<Token>, key: string, n: nat): int
    requires n <= PairCount(tokens)
  {
    if n == 0 then 0
    else WeightFor(tokens, key, n - 1) + (if PairKey(tokens, n - 1) == key then PairWeight(tokens, n - 1) else 0)
  }

  /** The `tf` computed at the last position below n that forms key. */
  function LastTf(tokens: seq<Token>, key: string, n: nat): int
    requires n <= PairCount(tokens)
    requires Formed(tokens, key, n)
  {
    if PairKey(tokens, n - 1) == key then PairTf(tokens, n - 1) else LastTf(tokens, key, n - 1)
  }

  /** The weighted sum a posting starts from: the existing one, or 0
      (`entry.get("weighted_sum", 0)`). */
  function BaseSum(idx: Index, key: string, doc: string): int
  {
    match PostingAt(idx, key, doc)
    case Some(p) => p.weightedSum
    case None => 0
  }

  /** The loop touches only postings of `doc` and no anchor list; it adds
      exactly the keys the document forms. */
  lemma {:induction false} BigramsFrame(idx: Index, tokens: seq<Token>, doc: string, n: nat, key: string)
    requires n <= PairCount(tokens)
    ensures forall d :: d != doc ==> PostingAt(Bigrams(idx, tokens, doc, n), key, d) == PostingAt(idx, key, d)
    ensures EntryAt(Bigrams(idx, tokens, doc, n), key).anchorLists == EntryAt(idx, key).anchorLists
    ensures key in Bigrams(idx, tokens, doc, n) <==> key in idx || Formed(tokens, key, n)
    decreases n
  {
    if n > 0 {
      BigramsFrame(idx, tokens, doc, n - 1, key);
    }
  }

  /** The posting of (key, doc) after the loop: untouched if no position forms
      key; otherwise its `tf` is the one computed at the last such position
      and its `weighted_sum` has grown by the weights of all of them. */
  lemma {:induction false} BigramsPosting(idx: Index, tokens: seq<Token>, doc: string, n: nat, key: string)
    requires n <= PairCount(tokens)
    ensures !Formed(tokens, key, n) ==> PostingAt(Bigrams(idx, tokens, doc, n), key, doc) == PostingAt(idx, key, doc)
    ensures Formed(tokens, key, n) ==>
              var sum := BaseSum(idx, key, doc) + WeightFor(tokens, key, n);
              var tf := LastTf(tokens, key, n);
              tf >= 2 && PostingAt(Bigrams(idx, tokens, doc, n), key, doc) == Some(Posting(tf, sum, Average(sum, tf)))
    decreases n
  {
    if n > 0 {
      var prev := Bigrams(idx, tokens, doc, n - 1);
      BigramsPosting(idx, tokens, doc, n - 1, key);
      PairTfAtLeastTwo(tokens, n - 1);
      BumpPosting(prev, PairKey(tokens, n - 1), doc, PairTf(tokens, n - 1), PairWeight(tokens, n - 1), key);
      if PairKey(tokens, n - 1) == key && !Formed(tokens, key, n - 1) {
        UnformedWeightZero(tokens, key, n - 1);
      }
    }
  }

  /** One update changes the posting of its own key and document only. */
  lemma BumpPosting(idx: Index, k: string, doc: string, tf: int, weight: int, key: string)
    requires tf != 0
    ensures PostingAt(Bump(idx, k, doc, tf, weight), key, doc)
         == if k == key then Some(Posting(tf, BaseSum(idx, key, doc) + weight, Average(BaseSum(idx, key, doc) + weight, tf)))
            else PostingAt(idx, key, doc)
  {
  }

  lemma {:induction false} UnformedWeightZero(tokens: seq<Token>, key: string, n: nat)
    requires n <= PairCount(tokens)
    requires !Formed(tokens, key, n)
    ensures WeightFor(tokens, key, n) == 0
    decreases n
  {
    if n > 0 {
      UnformedWeightZero(tokens, key, n - 1);
    }
  }

  /** For a document with no postings yet: the keys that get a posting for it
      are exactly the bigrams of its tokens, each with `tf >= 2` (so the
      division of Indexer.py:156 is defined) and with `weighted_sum` the sum
      of the pair weights over all positions forming the key.  A document of
      fewer than two tokens adds nothing. */
  lemma FreshDocument(idx: Index, tokens: seq<Token>, doc: string, key: string)
    requires PostingAt(idx, key, doc) == None
    ensures var after := Bigrams(idx, tokens, doc, PairCount(tokens));
            && (PostingAt(after, key, doc).Some? <==> exists i :: 0 <= i < PairCount(tokens) && PairKey(tokens, i) == key)
            && (PostingAt(after, key, doc).Some? ==>
                  PostingAt(after, key, doc).value.tf >= 2 &&
                  PostingAt(after, key, doc).value.weightedSum == WeightFor(tokens, key, PairCount(tokens)))
            && (|tokens| < 2 ==> after == idx)
  {
    BigramsPosting(idx, tokens, doc, PairCount(tokens), key);
    FormedIff(tokens, key, PairCount(tokens));
  }

  /** When no token contains a space, a bigram key determines its two tokens,
      so every position forming the key computes the same `tf`: assigning
      rather than adding makes `tf` the value of any of its occurrences. */
  lemma TfSameAtEveryOccurrence(tokens: seq<Token>, key: string, n: nat, i: nat)
    requires n <= PairCount(tokens)
    requires forall j :: 0 <= j < |tokens| ==> ' ' !in tokens[j].0
    requires i < n && PairKey(tokens, i) == key
    ensures Formed(tokens, key, n) && LastTf(tokens, key, n) == PairTf(tokens, i)
  {
    FormedIff(tokens, key, n);
    LastTfAgrees(tokens, key, n, i);
  }

  lemma {:induction false} LastTfAgrees(tokens: seq<Token>, key: string, n: nat, i: nat)
    requires n <= PairCount(tokens)
    requires forall j :: 0 <= j < |tokens| ==> ' ' !in tokens[j].0
    requires i < n && PairKey(tokens, i) == key
    requires Formed(tokens, key, n)
    ensures LastTf(tokens, key, n) == PairTf(tokens, i)
    decreases n
  {
    if PairKey(tokens, n - 1) == key {
      JoinedUnique(tokens[i].0, tokens[i + 1].0, tokens[n - 1].0, tokens[n].0);
    } else {
      assert i < n - 1;
      FormedIff(tokens, key, n - 1);
      LastTfAgrees(tokens, key, n - 1, i);
    }
  }

  /** `a + " " + b` determines a and b when neither contains a space. */
  lemma JoinedUnique(a: string, b: string, c: string, d: string)
    requires ' ' !in a && ' ' !in c
    requires a + " " + b == c + " " + d
    ensures a == c && b == d
  {
    var s := a + " " + b;
    assert s[|a|] == ' ' && s[|c|] == ' ';
    assert |a| == |c|;
    assert a == s[..|a|] == c;
    assert b == s[|a| + 1..] == d;
  }

  /** A bigram key contains a space, so it is never the reserved key. */
  lemma PairKeyNotAnchorKey(tokens: seq<Token>, i: nat)
    requires i + 1 < |tokens|
    ensures PairKey(tokens, i) != AnchorKey
  {
    var k := PairKey(tokens, i);
    assert k[|tokens[i].0|] == ' ';
    assert ' ' !in AnchorKey;
  }

  // ---------------------------------------------------------------------
  // Weights as get_tokens assigns them

  /** One of the weights get_tokens attaches: a tag class of the `weights`
      table or plain text. */
  predicate ValidWeight(w: int)
  {
    w == TitleWeight || w == BoldWeight || w == HeadingWeight || w == PlainWeight
  }

  /** The number of positions below n whose pair spells key. */
  function FormedCount(tokens: seq<Token>, key: string, n: nat): nat
    requires n <= PairCount(tokens)
  {
    if n == 0 then 0
    else FormedCount(tokens, key, n - 1) + (if PairKey(tokens, n - 1) == key then 1 else 0)
  }

  /** With get_tokens' weights every occurrence of a bigram adds between 2.0
      (two plain tokens) and 4.0 (two title tokens) to its `weighted_sum`. */
  lemma {:induction false} WeightForBounds(tokens: seq<Token>, key: string, n: nat)
    requires n <= PairCount(tokens)
    requires forall i :: 0 <= i < |tokens| ==> ValidWeight(tokens[i].1)
    ensures 2 * PlainWeight * FormedCount(tokens, key, n) <= WeightFor(tokens, key, n)
    ensures WeightFor(tokens, key, n) <= 2 * TitleWeight * FormedCount(tokens, key, n)
    decreases n
  {
    if n > 0 {
      WeightForBounds(tokens, key, n - 1);
      assert ValidWeight(tokens[n - 1].1) && ValidWeight(tokens[n].1);
    }
  }

  /** A bigram is formed exactly when it occurs at least once. */
  lemma {:induction false} FormedCountPositive(tokens: seq<Token>, key: string, n: nat)
    requires n <= PairCount(tokens)
    ensures Formed(tokens, key, n) <==> FormedCount(tokens, key, n) >= 1
    decreases n
  {
    if n > 0 {
      FormedCountPositive(tokens, key, n - 1);
    }
  }

  // ---------------------------------------------------------------------
  // The shape of the whole index

  predicate ValidPosting(p: Posting)
  {
    p.tf >= 2 && p.weightedAverage == Average(p.weightedSum, p.tf)
  }

  /** What holds of the index between documents: every key but "anchor_words"
      has at least one posting and no anchor lists; "anchor_words" has an
      empty "doc_list"; every posting belongs to a processed document, has
      `tf >= 2` and stores its average. */
  predicate WellFormed(idx: Index, processed: set<string>)
  {
    && (forall k :: k in idx && k != AnchorKey ==> idx[k].docList != map[] && idx[k].anchorLists == map[])
    && (AnchorKey in idx ==> idx[AnchorKey].docList == map[] && idx[AnchorKey].anchorLists.Keys <= processed)
    && (forall k, d :: k in idx && d in idx[k].docList ==> d in processed && ValidPosting(idx[k].docList[d]))
  }

  lemma {:induction false} BigramsWellFormed(idx: Index, processed: set<string>, tokens: seq<Token>, doc: string, n: nat)
    requires n <= PairCount(tokens)
    requires WellFormed(idx, processed) && doc in processed
    ensures WellFormed(Bigrams(idx, tokens, doc, n), processed)
    decreases n
  {
    if n > 0 {
      BigramsWellFormed(idx, processed, tokens, doc, n - 1);
      PairKeyNotAnchorKey(tokens, n - 1);
      PairTfAtLeastTwo(tokens, n - 1);
      BumpWellFormed(Bigrams(idx, tokens, doc, n - 1), processed, PairKey(tokens, n - 1), doc,
                     PairTf(tokens, n - 1), PairWeight(tokens, n - 1));
    }
  }

  lemma BumpWellFormed(idx: Index, processed: set<string>, key: string, doc: string, tf: int, weight: int)
    requires WellFormed(idx, processed) && doc in processed
    requires key != AnchorKey && tf >= 2
    ensures WellFormed(Bump(idx, key, doc, tf, weight), processed)
  {
    var after := Bump(idx, key, doc, tf, weight);
    var e := EntryAt(idx, key);
    assert key in idx ==> e.anchorLists == map[];
    forall k, d | k in after && d in after[k].docList
      ensures d in processed && ValidPosting(after[k].docList[d])
    {
      if k != key {
        assert after[k] == idx[k];
      } else if d != doc {
        assert after[k].docList[d] == e.docList[d];
      }
    }
  }

  /** The document frequency `len(data['doc_list'])` of calc_tf_idf_scores. */
  function DocFreq(e: Entry): nat
  {
    |e.docList|
  }

  /** In a well-formed index the ZeroDivisionError guard of Indexer.py:185-188
      fires for "anchor_words" and for no other key, and no key is in more
      documents than have been processed. */
  lemma DocFreqBounds(idx: Index, processed: set<string>, key: string)
    requires WellFormed(idx, processed) && key in idx
    ensures DocFreq(idx[key]) == 0 <==> key == AnchorKey
    ensures DocFreq(idx[key]) <= |processed|
  {
    var docs := idx[key].docList.Keys;
    assert docs <= processed;
    SubsetCard(docs, processed);
    if key != AnchorKey {
      var d :| d in idx[key].docList;
      assert d in docs;
    }
  }

  lemma {:induction false} SubsetCard<T>(a: set<T>, b: set<T>)
    requires a <= b
    ensures |a| <= |b|
    decreases |a|
  {
    if a != {} {
      var x :| x in a;
      SubsetCard(a - {x}, b - {x});
    }
  }
}
