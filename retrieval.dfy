/**
  Retriever.search_query (Retriever.py:20-56): every query term is matched as
  a substring against every key of the index; the postings of the matching
  keys become Links (doc id, integer rank) in the term's set; the result is
  the intersection of the first and the last of these sets (the loop of
  Retriever.py:35-36 overwrites `res` each time), ordered by descending rank,
  with a single Link kept per doc id.
 */
module Retrieval {
  import opened Text
  import opened Wrappers

  /** `Link = namedtuple('Link', ['link', 'rank_id'])`. */
  datatype Link = Link(link: string, rankId: int)

  /** The index as search_query reads it: for each key its "doc_list", each
      posting reduced to its rank `int(weighted_average) + int(tf_idf)`. */
  type ScoreIndex = map<string, map<string, int>>

  /** `list(query_dict.values())[0]` on an empty dict. */
  datatype SearchError = IndexError

  // ---------------------------------------------------------------------
  // Matching (Retriever.py:24-31)

  /** The Links the postings of one key give, for the doc ids among D. */
  ghost function LinksAmong(idx: ScoreIndex, key: string, D: set<string>): set<Link>
    requires key in idx
  {
    set doc | doc in D && doc in idx[key] :: Link(doc, idx[key][doc])
  }

  /** The Links term q collects from the keys among K. */
  ghost function MatchIn(idx: ScoreIndex, q: string, K: set<string>): set<Link>
  {
    set key, doc | key in K && key in idx && Contains(key, q) && doc in idx[key] :: Link(doc, idx[key][doc])
  }

  /** `query_dict[q]` once q has been matched against every key. */
  ghost function MatchSet(idx: ScoreIndex, q: string): set<Link>
  {
    MatchIn(idx, q, idx.Keys)
  }

  /** A Link is in `query_dict[q]` exactly when some key contains q as a
      substring and has a posting for the Link's doc id with the Link's rank. */
  lemma MatchSetMembers(idx: ScoreIndex, q: string, l: Link)
    ensures l in MatchSet(idx, q) <==>
              exists key :: key in idx && (exists i: nat :: OccursAt(key, q, i)) && l.link in idx[key] && idx[key][l.link] == l.rankId
  {
    if l in MatchSet(idx, q) {
      var key, doc :| key in idx && Contains(key, q) && doc in idx[key] && l == Link(doc, idx[key][doc]);
      assert key in idx && (exists i: nat :: OccursAt(key, q, i)) && l.link in idx[key] && idx[key][l.link] == l.rankId;
    }
  }

  /** Visiting one more key adds its Links when it contains q. */
  lemma MatchInStep(idx: ScoreIndex, q: string, keys: set<string>, key: string)
    requires key in keys && keys <= idx.Keys
    ensures MatchIn(idx, q, idx.Keys - (keys - {key}))
         == MatchIn(idx, q, idx.Keys - keys) + (if Contains(key, q) then LinksAmong(idx, key, idx[key].Keys) else {})
  {
    assert idx.Keys - (keys - {key}) == (idx.Keys - keys) + {key};
  }

  /** Visiting one more posting adds its Link. */
  lemma LinksAmongStep(idx: ScoreIndex, key: string, docs: set<string>, doc: string)
    requires key in idx && doc in docs && docs <= idx[key].Keys
    ensures LinksAmong(idx, key, idx[key].Keys - (docs - {doc}))
         == LinksAmong(idx, key, idx[key].Keys - docs) + {Link(doc, idx[key][doc])}
  {
    assert idx[key].Keys - (docs - {doc}) == (idx[key].Keys - docs) + {doc};
  }

  /** The innermost loop of Retriever.py:28-31: the Links of the postings of
      one key, visited in any order. */
  method KeyLinks(idx: ScoreIndex, key: string) returns (links: set<Link>)
    requires key in idx
    ensures links == LinksAmong(idx, key, idx[key].Keys)
  {
    links := {};
    var docs := idx[key].Keys;
    while docs != {}
      invariant docs <= idx[key].Keys
      invariant links == LinksAmong(idx, key, idx[key].Keys - docs)
      decreases |docs|
    {
      var doc :| doc in docs;
      LinksAmongStep(idx, key, docs, doc);
      links := links + {Link(doc, idx[key][doc])};
      docs := docs - {doc};
    }
    assert idx[key].Keys - docs == idx[key].Keys;
  }

  /** The loops of Retriever.py:25-31 for one term: the Links of all
      postings under all keys containing q, the keys visited in any order. */
  method CollectMatches(idx: ScoreIndex, q: string) returns (found: set<Link>)
    ensures found == MatchSet(idx, q)
  {
    found := {};
    var keys := idx.Keys;
    while keys != {}
      invariant keys <= idx.Keys
      invariant found == MatchIn(idx, q, idx.Keys - keys)
      decreases |keys|
    {
      var key :| key in keys;
      MatchInStep(idx, q, keys, key);
      if Contains(key, q) {
        var links := KeyLinks(idx, key);
        found := found + links;
      }
      keys := keys - {key};
    }
    assert idx.Keys - keys == idx.Keys;
  }

  /** The keys of `query_dict` in insertion order: each term of qs that
      matches something, at its first appearance. */
  ghost function PresentTerms(idx: ScoreIndex, qs: seq<string>): (ps: seq<string>)
    ensures forall q :: q in ps <==> q in qs && MatchSet(idx, q) != {}
    ensures forall i, j :: 0 <= i < j < |ps| ==> ps[i] != ps[j]
    decreases |qs|
  {
    if qs == [] then []
    else
      var prefix := qs[..|qs| - 1];
      var q := qs[|qs| - 1];
      var ps := PresentTerms(idx, prefix);
      assert forall x :: x in qs <==> x in prefix || x == q by {
        assert qs == prefix + [q];
      }
      if MatchSet(idx, q) != {} && q !in ps then ps + [q] else ps
  }

  /** A term that matches nothing never gets a `query_dict` entry, so it
      changes neither the terms present nor their order, wherever it stands. */
  lemma {:induction false} UnmatchedTermIgnored(idx: ScoreIndex, a: seq<string>, q: string, b: seq<string>)
    requires MatchSet(idx, q) == {}
    ensures PresentTerms(idx, a + [q] + b) == PresentTerms(idx, a + b)
    decreases |b|
  {
    if b == [] {
      assert (a + [q] + b)[..|a + [q] + b| - 1] == a;
      assert a + b == a;
    } else {
      var b' := b[..|b| - 1];
      UnmatchedTermIgnored(idx, a, q, b');
      assert (a + [q] + b)[..|a + [q] + b| - 1] == a + [q] + b';
      assert (a + [q] + b)[|a + [q] + b| - 1] == b[|b| - 1];
      assert (a + b)[..|a + b| - 1] == a + b';
      assert (a + b)[|a + b| - 1] == b[|b| - 1];
    }
  }

  /** The nested loops of Retriever.py:24-31: `query_dict` as a map from each
      term that matched to its set, and the order of its keys. */
  method MatchTerms(idx: ScoreIndex, queries: seq<string>) returns (qd: map<string, set<Link>>, order: seq<string>)
    ensures order == PresentTerms(idx, queries)
    ensures forall q :: q in qd <==> q in order
    ensures forall q :: q in qd ==> qd[q] == MatchSet(idx, q)
  {
    qd, order := map[], [];
    for j := 0 to |queries|
      invariant order == PresentTerms(idx, queries[..j])
      invariant forall q :: q in qd <==> q in order
      invariant forall q :: q in qd ==> qd[q] == MatchSet(idx, q)
    {
      var q := queries[j];
      var found := CollectMatches(idx, q);
      if found != {} {
        if q !in qd {
          order := order + [q];
          qd := qd[q := found];
        } else {
          qd := qd[q := qd[q] + found];
        }
      }
      assert queries[..j + 1][..j] == queries[..j];
      assert queries[..j + 1][j] == q;
    }
    assert queries[..|queries|] == queries;
  }

  // ---------------------------------------------------------------------
  // Intersection (Retriever.py:33-36, 40)

  predicate Distinct<T(==)>(s: seq<T>)
  {
    forall i, j :: 0 <= i < j < |s| ==> s[i] != s[j]
  }

  /** `list(s)`: the elements of s once each, in an order the model leaves open. */
  method SetToSeq<T(==)>(s: set<T>) returns (r: seq<T>)
    ensures forall x :: x in r <==> x in s
    ensures Distinct(r)
  {
    r := [];
    var rest := s;
    while rest != {}
      invariant rest <= s
      invariant forall x :: x in r ==> x in s && x !in rest
      invariant forall x :: x in s ==> x in r || x in rest
      invariant Distinct(r)
      decreases |rest|
    {
      var x :| x in rest;
      r := r + [x];
      rest := rest - {x};
    }
  }

  /** Retriever.py:33-36: `res` is rebuilt from the first set and each set in
      turn, so it ends as the intersection of the first and the last. */
  method Intersect(qd: map<string, set<Link>>, order: seq<string>) returns (res: seq<Link>)
    requires order != [] && forall j :: 0 <= j < |order| ==> order[j] in qd
    ensures forall x :: x in res <==> x in qd[order[0]] && x in qd[order[|order| - 1]]
    ensures Distinct(res)
  {
    var starting := qd[order[0]];
    res := [];
    for j := 0 to |order|
      invariant j > 0 ==> forall x :: x in res <==> x in starting && x in qd[order[j - 1]]
      invariant Distinct(res)
    {
      res := SetToSeq(starting * qd[order[j]]);
    }
  }

  // ---------------------------------------------------------------------
  // Ordering (Retriever.py:42)

  predicate RankDescending(s: seq<Link>)
  {
    forall i, j :: 0 <= i < j < |s| ==> s[i].rankId >= s[j].rankId
  }

  /** Inserts x into a descending list in front of the first Link of rank at most its own. */
  function InsertByRank(x: Link, s: seq<Link>): (r: seq<Link>)
    requires RankDescending(s)
    ensures RankDescending(r)
    ensures multiset(r) == multiset(s) + multiset{x}
    decreases |s|
  {
    if s == [] || s[0].rankId <= x.rankId then
      HeadAbove(x, s);
      [x] + s
    else
      var tail := InsertByRank(x, s[1..]);
      InsertedBelowHead(x, s, tail);
      [s[0]] + tail
  }

  /** The recursive case of InsertByRank: the head of s stays in front. */
  lemma InsertedBelowHead(x: Link, s: seq<Link>, tail: seq<Link>)
    requires s != [] && RankDescending(s) && s[0].rankId > x.rankId
    requires RankDescending(tail) && multiset(tail) == multiset(s[1..]) + multiset{x}
    ensures RankDescending([s[0]] + tail)
    ensures multiset([s[0]] + tail) == multiset(s) + multiset{x}
  {
    assert s == [s[0]] + s[1..];
    forall y | y in tail ensures y.rankId <= s[0].rankId {
      assert y in multiset(tail);
      if y != x {
        assert y in multiset(s[1..]);
        var k :| 0 <= k < |s[1..]| && s[1..][k] == y;
        assert s[k + 1] == y;
      }
    }
    HeadAbove(s[0], tail);
  }

  /** A Link ranked at least as high as every Link of a descending list can go in front of it. */
  lemma HeadAbove(h: Link, t: seq<Link>)
    requires RankDescending(t) && forall y :: y in t ==> y.rankId <= h.rankId
    ensures RankDescending([h] + t)
  {
    var r := [h] + t;
    forall i, j | 0 <= i < j < |r| ensures r[i].rankId >= r[j].rankId {
      assert r[j] == t[j - 1];
      if i > 0 { assert r[i] == t[i - 1]; } else { assert t[j - 1] in t; }
    }
  }

  /** `res.sort(key=lambda x: x.rank_id, reverse=True)`: a permutation of s in
      descending rank order. */
  function SortByRank(s: seq<Link>): (r: seq<Link>)
    ensures RankDescending(r)
    ensures multiset(r) == multiset(s)
    decreases |s|
  {
    if s == [] then []
    else
      assert s == [s[0]] + s[1..];
      InsertByRank(s[0], SortByRank(s[1..]))
  }

  // ---------------------------------------------------------------------
  // Deduplication (Retriever.py:45-52)

  /** The doc ids of the Links in s. */
  function LinkIds(s: seq<Link>): set<string>
  {
    set i | 0 <= i < |s| :: s[i].link
  }

  /** s with every Link dropped whose doc id occurs earlier in s. */
  function Dedup(s: seq<Link>): seq<Link>
    decreases |s|
  {
    if s == [] then []
    else
      var prefix := s[..|s| - 1];
      var x := s[|s| - 1];
      Dedup(prefix) + (if x.link in LinkIds(prefix) then [] else [x])
  }

  lemma LinkIdsSnoc(s: seq<Link>, k: nat)
    requires k < |s|
    ensures LinkIds(s[..k + 1]) == LinkIds(s[..k]) + {s[k].link}
  {
    var a, b := s[..k], s[..k + 1];
    forall d | d in LinkIds(b) ensures d in LinkIds(a) + {s[k].link} {
      var i :| 0 <= i < |b| && b[i].link == d;
      if i < k { assert a[i] == b[i]; }
    }
    forall d | d in LinkIds(a) + {s[k].link} ensures d in LinkIds(b) {
      if d in LinkIds(a) {
        var i :| 0 <= i < |a| && a[i].link == d;
        assert b[i] == a[i];
      } else {
        assert b[k] == s[k];
      }
    }
  }

  lemma DedupSnoc(s: seq<Link>, k: nat)
    requires k < |s|
    ensures Dedup(s[..k + 1]) == Dedup(s[..k]) + (if s[k].link in LinkIds(s[..k]) then [] else [s[k]])
  {
    assert s[..k + 1][..k] == s[..k];
    assert s[..k + 1][k] == s[k];
  }

  /** The `while` loop with `temp` and `res.pop(i)`, in place on `res`. */
  method DedupByLink(s: seq<Link>) returns (res: seq<Link>)
    ensures res == Dedup(s)
  {
    res := s;
    var temp: set<string> := {};
    var i := 0;
    ghost var k := 0;
    assert LinkIds([]) == {};
    while i < |res|
      invariant 0 <= i <= |res| && i <= k <= |s|
      invariant res[..i] == Dedup(s[..k]) && res[i..] == s[k..]
      invariant temp == LinkIds(s[..k])
      decreases |res| - i
    {
      assert res[i] == res[i..][0] == s[k..][0] == s[k];
      DedupSnoc(s, k);
      LinkIdsSnoc(s, k);
      if res[i].link !in temp {
        temp := temp + {res[i].link};
        assert res[..i + 1] == res[..i] + [res[i]];
        assert res[i + 1..] == res[i..][1..];
        i := i + 1;
      } else {
        ghost var before := res;
        res := res[..i] + res[i + 1..];
        assert res[..i] == before[..i];
        assert res[i..] == before[i + 1..] == before[i..][1..];
      }
      assert s[k + 1..] == s[k..][1..];
      k := k + 1;
    }
    assert res[i..] == [] && s[k..] == [];
    assert res == res[..i] && s[..k] == s;
  }

  /** No two Links of the result share a doc id. */
  lemma {:induction false} DedupUnique(s: seq<Link>)
    ensures forall i, j :: 0 <= i < j < |Dedup(s)| ==> Dedup(s)[i].link != Dedup(s)[j].link
    decreases |s|
  {
    if s != [] {
      var prefix := s[..|s| - 1];
      var x := s[|s| - 1];
      var dp := Dedup(prefix);
      DedupUnique(prefix);
      DedupIds(prefix);
      if x.link !in LinkIds(prefix) {
        var d := dp + [x];
        forall i, j | 0 <= i < j < |d| ensures d[i].link != d[j].link {
          assert d[i] == dp[i];
          if j == |dp| {
            assert dp[i].link in LinkIds(dp);
          } else {
            assert d[j] == dp[j];
          }
        }
      }
    }
  }

  /** The result keeps only Links of s. */
  lemma {:induction false} DedupSubset(s: seq<Link>)
    ensures forall x :: x in Dedup(s) ==> x in s
    decreases |s|
  {
    if s != [] {
      var prefix := s[..|s| - 1];
      DedupSubset(prefix);
      assert forall y :: y in prefix ==> y in s;
    }
  }

  /** Every doc id of s survives, and no other. */
  lemma {:induction false} DedupIds(s: seq<Link>)
    ensures LinkIds(Dedup(s)) == LinkIds(s)
    decreases |s|
  {
    if s != [] {
      var prefix := s[..|s| - 1];
      var x := s[|s| - 1];
      DedupIds(prefix);
      LinkIdsSnoc(s, |s| - 1);
      assert s[..|s|] == s;
      if x.link !in LinkIds(prefix) {
        var d := Dedup(prefix) + [x];
        assert Dedup(s) == d;
        LinkIdsSnoc(d, |Dedup(prefix)|);
        assert d[..|Dedup(prefix)|] == Dedup(prefix);
        assert d[..|Dedup(prefix)| + 1] == d;
      } else {
        assert Dedup(s) == Dedup(prefix);
        assert LinkIds(s) == LinkIds(prefix) + {x.link} == LinkIds(prefix);
      }
    }
  }

  /** a is obtained from b by deleting elements. */
  predicate Subsequence(a: seq<Link>, b: seq<Link>)
    decreases |b|
  {
    if b == [] then a == []
    else (a != [] && a[|a| - 1] == b[|b| - 1] && Subsequence(a[..|a| - 1], b[..|b| - 1]))
         || Subsequence(a, b[..|b| - 1])
  }

  /** The dedup loop only deletes: the Links it keeps are in their original order. */
  lemma {:induction false} DedupSubsequence(s: seq<Link>)
    ensures Subsequence(Dedup(s), s)
    decreases |s|
  {
    if s != [] {
      var prefix := s[..|s| - 1];
      var x := s[|s| - 1];
      DedupSubsequence(prefix);
      if x.link !in LinkIds(prefix) {
        var d := Dedup(prefix) + [x];
        assert Dedup(s) == d;
        assert d[..|d| - 1] == Dedup(prefix) && d[|d| - 1] == x;
      } else {
        assert Dedup(s) == Dedup(prefix);
      }
    }
  }

  /** Dropping Links from a descending list keeps it descending. */
  lemma {:induction false} DedupDescending(s: seq<Link>)
    requires RankDescending(s)
    ensures RankDescending(Dedup(s))
    decreases |s|
  {
    if s != [] {
      var prefix := s[..|s| - 1];
      var x := s[|s| - 1];
      var dp := Dedup(prefix);
      assert RankDescending(prefix);
      DedupDescending(prefix);
      if x.link !in LinkIds(prefix) {
        DedupSubset(prefix);
        forall y | y in dp ensures y.rankId >= x.rankId {
          assert y in prefix;
          var k :| 0 <= k < |prefix| && prefix[k] == y;
          assert s[k] == y;
        }
        DescendingSnoc(dp, x);
      }
    }
  }

  lemma DescendingSnoc(t: seq<Link>, x: Link)
    requires RankDescending(t) && forall y :: y in t ==> y.rankId >= x.rankId
    ensures RankDescending(t + [x])
  {
    var r := t + [x];
    forall i, j | 0 <= i < j < |r| ensures r[i].rankId >= r[j].rankId {
      assert r[i] == t[i];
      if j < |t| { assert r[j] == t[j]; } else { assert t[i] in t; }
    }
  }

  /** In a descending list the Link kept for each doc id, its first, is its
      highest-ranked one. */
  lemma {:induction false} DedupHighest(s: seq<Link>)
    requires RankDescending(s)
    ensures forall i, k :: 0 <= i < |Dedup(s)| && 0 <= k < |s| && s[k].link == Dedup(s)[i].link ==>
              s[k].rankId <= Dedup(s)[i].rankId
    decreases |s|
  {
    if s != [] {
      var prefix := s[..|s| - 1];
      var x := s[|s| - 1];
      var dp := Dedup(prefix);
      var d := Dedup(s);
      assert RankDescending(prefix);
      DedupHighest(prefix);
      DedupSubset(prefix);
      assert d == dp + (if x.link in LinkIds(prefix) then [] else [x]);
      forall i, k | 0 <= i < |d| && 0 <= k < |s| && s[k].link == d[i].link ensures s[k].rankId <= d[i].rankId {
        if i < |dp| {
          assert d[i] == dp[i];
          if k < |prefix| {
            assert prefix[k] == s[k];
          } else {
            assert dp[i] in dp;
            var m :| 0 <= m < |prefix| && prefix[m] == dp[i];
            assert s[m] == dp[i];
          }
        } else {
          assert d[i] == x && x.link !in LinkIds(prefix);
          assert forall m :: 0 <= m < |prefix| ==> prefix[m].link in LinkIds(prefix);
        }
      }
    }
  }

  /** What the dedup loop makes of a descending list holding exactly the Links of C. */
  lemma DedupOfCandidates(s: seq<Link>, C: set<Link>)
    requires RankDescending(s) && forall x :: x in s <==> x in C
    ensures var d := Dedup(s);
            && (forall x :: x in d ==> x in C)
            && (forall x :: x in C ==> exists i :: 0 <= i < |d| && d[i].link == x.link && d[i].rankId >= x.rankId)
            && (forall i, j :: 0 <= i < j < |d| ==> d[i].link != d[j].link)
            && RankDescending(d)
  {
    var d := Dedup(s);
    DedupUnique(s);
    DedupIds(s);
    DedupSubset(s);
    DedupDescending(s);
    DedupHighest(s);
    forall x | x in C ensures exists i :: 0 <= i < |d| && d[i].link == x.link && d[i].rankId >= x.rankId {
      var k :| 0 <= k < |s| && s[k] == x;
      assert x.link in LinkIds(s);
      var i :| 0 <= i < |d| && d[i].link == x.link;
      assert s[k].link == d[i].link;
    }
  }

  // ---------------------------------------------------------------------
  // The query

  /** The Links both the first and the last term of `query_dict` collected. */
  ghost function Candidates(idx: ScoreIndex, queries: seq<string>): set<Link>
    requires PresentTerms(idx, queries) != []
  {
    var ps := PresentTerms(idx, queries);
    MatchSet(idx, ps[0]) * MatchSet(idx, ps[|ps| - 1])
  }

  class Retriever {
    /** `self.inverted_index`, as loaded by `__init__`. */
    const invertedIndex: ScoreIndex

    constructor(idx: ScoreIndex)
      ensures invertedIndex == idx
    {
      invertedIndex := idx;
    }

    /** search_query: fails with the IndexError of Retriever.py:33 exactly
        when no term matches anything; otherwise returns, in descending rank
        order and once per doc id, the highest-ranked Link of every doc id
        that both the first and the last matching term collected. */
    method SearchQuery(queries: seq<string>) returns (r: Result<seq<Link>, SearchError>)
      ensures r.Failure? <==> forall q :: q in queries ==> MatchSet(invertedIndex, q) == {}
      ensures r.Success? ==>
                && (forall x :: x in r.value ==> x in Candidates(invertedIndex, queries))
                && (forall x :: x in Candidates(invertedIndex, queries) ==>
                      exists i :: 0 <= i < |r.value| && r.value[i].link == x.link && r.value[i].rankId >= x.rankId)
                && (forall i, j :: 0 <= i < j < |r.value| ==> r.value[i].link != r.value[j].link)
                && RankDescending(r.value)
    {
      var qd, order := MatchTerms(invertedIndex, queries);
      PresentTermsEmpty(invertedIndex, queries);
      if order == [] {
        return Failure(IndexError);
      }
      ghost var C := Candidates(invertedIndex, queries);
      assert order[0] in order && order[|order| - 1] in order;
      assert qd[order[0]] == MatchSet(invertedIndex, order[0]);
      assert qd[order[|order| - 1]] == MatchSet(invertedIndex, order[|order| - 1]);
      assert C == qd[order[0]] * qd[order[|order| - 1]];
      assert forall j :: 0 <= j < |order| ==> order[j] in qd;
      var res := Intersect(qd, order);
      res := SetToSeq(set x | x in res);
      ghost var unsorted := res;
      res := SortByRank(res);
      SameElements(unsorted, res);
      DedupOfCandidates(res, C);
      res := DedupByLink(res);
      r := Success(res);
    }
  }

  lemma SameElements(a: seq<Link>, b: seq<Link>)
    requires multiset(a) == multiset(b)
    ensures forall x :: x in a <==> x in b
  {
    forall x ensures x in a <==> x in b {
      assert x in a <==> x in multiset(a);
      assert x in b <==> x in multiset(b);
    }
  }

  /** `query_dict` stays empty exactly when no term matches anything. */
  lemma PresentTermsEmpty(idx: ScoreIndex, queries: seq<string>)
    ensures PresentTerms(idx, queries) == [] <==> forall q :: q in queries ==> MatchSet(idx, q) == {}
  {
    if PresentTerms(idx, queries) != [] {
      assert PresentTerms(idx, queries)[0] in PresentTerms(idx, queries);
    }
  }
}
