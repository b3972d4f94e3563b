/**
  refine_tokens (Indexer.py:194-224): each lemmatised word is scanned
  character by character; ASCII letters are lowercased and collected into a
  run, and any other character closes the run.  Two quirks of the code are
  kept: after every word its final run is appended even when it is empty,
  and after the last word its final run is appended a second time.
 */
module Refinement {
  import opened Text

  /** The inner loop (Indexer.py:208-215) as a function: the runs emitted
      and the current run after scanning s, starting from emitted and cur. */
  function Scan(s: string, emitted: seq<string>, cur: string): (seq<string>, string)
    decreases |s|
  {
    if s == [] then (emitted, cur)
    else if IsLetter(s[0]) then Scan(s[1..], emitted, cur + [Lower(s[0])])
    else if cur != [] then Scan(s[1..], emitted + [cur], [])
    else Scan(s[1..], emitted, [])
  }

  /** One word scanned from `cur = ""` (Indexer.py:206). */
  function WordScan(w: string): (seq<string>, string)
  {
    Scan(w, [], [])
  }

  /** What one word appends to `res`: the runs closed inside the loop, then
      the final run, unconditionally (Indexer.py:219). */
  function WordOutput(w: string): seq<string>
  {
    WordScan(w).0 + [WordScan(w).1]
  }

  /** The contents of `res` after the outer loop has seen `words`. */
  function Body(words: seq<string>): seq<string>
    decreases |words|
  {
    if words == [] then [] else Body(words[..|words| - 1]) + WordOutput(words[|words| - 1])
  }

  /** The value of `cur` after the outer loop: the last word's final run. */
  function FinalRun(words: seq<string>): string
  {
    if words == [] then [] else WordScan(words[|words| - 1]).1
  }

  /** The result of refine_tokens, the "edge case" of Indexer.py:221-222 included. */
  function Refine(words: seq<string>): seq<string>
  {
    Body(words) + (if FinalRun(words) != [] then [FinalRun(words)] else [])
  }

  /** refine_tokens as the source writes it: two nested loops building `res` and `cur`. */
  method RefineTokens(words: seq<string>) returns (res: seq<string>)
    ensures res == Refine(words)
    ensures words == [] ==> res == []
  {
    res := [];
    var cur: string := [];
    for j := 0 to |words|
      invariant res == Body(words[..j])
      invariant cur == FinalRun(words[..j])
    {
      var word := words[j];
      cur := [];
      ghost var before := res;
      for k := 0 to |word|
        invariant Scan(word[k..], res, cur) == Scan(word, before, [])
      {
        var c := word[k];
        var val := Lower(c) as int;
        if 97 <= val <= 122 {
          cur := cur + [Lower(c)];
        } else if cur != [] {
          res := res + [cur];
          cur := [];
        }
      }
      assert word[|word|..] == [];
      ScanShift(word, before, [], []);
      assert before + [] == before;
      assert (res, cur) == (before + WordScan(word).0, WordScan(word).1);
      res := res + [cur];
      assert words[..j + 1][..j] == words[..j];
      assert words[..j + 1][j] == word;
    }
    assert words[..|words|] == words;
    if cur != [] {
      res := res + [cur];
    }
  }

  /** Runs emitted before the scan starts stay in front of everything the scan emits. */
  lemma {:induction false} ScanShift(s: string, p: seq<string>, e: seq<string>, cur: string)
    ensures Scan(s, p + e, cur) == (p + Scan(s, e, cur).0, Scan(s, e, cur).1)
    decreases |s|
  {
    if s != [] {
      if IsLetter(s[0]) {
        ScanShift(s[1..], p, e, cur + [Lower(s[0])]);
      } else if cur != [] {
        assert p + e + [cur] == p + (e + [cur]);
        ScanShift(s[1..], p, e + [cur], []);
      } else {
        ScanShift(s[1..], p, e, []);
      }
    }
  }

  // ---------------------------------------------------------------------
  // An independent description of the output: maximal letter runs

  predicate AllAsciiLower(s: string)
  {
    forall j :: 0 <= j < |s| ==> IsAsciiLower(s[j])
  }

  predicate EndsWithLetter(s: string)
  {
    s != [] && IsAsciiLower(s[|s| - 1])
  }

  /** The maximal runs of 'a'..'z' in an already lowercased word, followed by
      an empty entry when the word does not end in a letter. */
  function RunsWithFinal(t: string): seq<string>
  {
    var f := Fields(t, NotAsciiLower);
    if EndsWithLetter(t) then f else f + [[]]
  }

  /** What each word contributes, word after word. */
  function RunsOfWords(words: seq<string>): seq<string>
    decreases |words|
  {
    if words == [] then []
    else RunsOfWords(words[..|words| - 1]) + RunsWithFinal(LowerAll(words[|words| - 1]))
  }

  /** The scan from any state whose current run is all letters yields the
      maximal runs of that run followed by the rest of the (lowercased) input. */
  lemma {:induction false} ScanRuns(s: string, e: seq<string>, cur: string)
    requires AllAsciiLower(cur)
    ensures Scan(s, e, cur).0 + [Scan(s, e, cur).1] == e + RunsWithFinal(cur + LowerAll(s))
    decreases |s|
  {
    if s == [] {
      assert cur + LowerAll(s) == cur;
      RunOnly(cur);
    } else if IsLetter(s[0]) {
      var cur' := cur + [Lower(s[0])];
      LetterStep(cur, s);
      ScanRuns(s[1..], e, cur');
    } else {
      var e' := if cur != [] then e + [cur] else e;
      ScanRuns(s[1..], e', []);
      NonLetterStep(cur, s);
    }
  }

  /** At the end of a word, the current run is the whole of what is left. */
  lemma {:induction false} RunOnly(cur: string)
    requires AllAsciiLower(cur)
    ensures RunsWithFinal(cur) == [cur]
  {
    if cur != [] {
      FieldsOfRun(cur, NotAsciiLower);
    }
  }

  /** A letter extends the current run. */
  lemma {:induction false} LetterStep(cur: string, s: string)
    requires AllAsciiLower(cur)
    requires s != [] && IsLetter(s[0])
    ensures AllAsciiLower(cur + [Lower(s[0])])
    ensures cur + [Lower(s[0])] + LowerAll(s[1..]) == cur + LowerAll(s)
  {
    var c := Lower(s[0]);
    ExtendRun(cur, c);
    assert cur + [c] + LowerAll(s[1..]) == cur + ([c] + LowerAll(s[1..]));
  }

  lemma ExtendRun(cur: string, c: char)
    requires AllAsciiLower(cur) && IsAsciiLower(c)
    ensures AllAsciiLower(cur + [c])
  {
    var cur' := cur + [c];
    forall j | 0 <= j < |cur'| ensures IsAsciiLower(cur'[j]) {
      if j < |cur| { assert cur'[j] == cur[j]; }
    }
  }

  /** A non-letter closes the current run. */
  lemma {:induction false} NonLetterStep(cur: string, s: string)
    requires AllAsciiLower(cur)
    requires s != [] && !IsLetter(s[0])
    ensures RunsWithFinal(cur + LowerAll(s)) == (if cur == [] then [] else [cur]) + RunsWithFinal([] + LowerAll(s[1..]))
  {
    assert [] + LowerAll(s[1..]) == LowerAll(s[1..]);
    assert LowerAll(s) == [Lower(s[0])] + LowerAll(s[1..]);
    assert cur + LowerAll(s) == cur + [Lower(s[0])] + LowerAll(s[1..]);
    SeparatorStep(cur, Lower(s[0]), LowerAll(s[1..]));
  }

  /** A non-letter after the current run closes it, when it is not empty. */
  lemma {:induction false} SeparatorStep(cur: string, d: char, u: string)
    requires AllAsciiLower(cur)
    requires !IsAsciiLower(d)
    ensures RunsWithFinal(cur + [d] + u) == (if cur == [] then [] else [cur]) + RunsWithFinal(u)
  {
    var t := cur + [d] + u;
    FieldsAfterSeparator(cur, d, u, NotAsciiLower);
    assert EndsWithLetter(t) <==> EndsWithLetter(u) by {
      if u != [] { assert t[|t| - 1] == u[|u| - 1]; } else { assert t[|t| - 1] == d; }
    }
  }

  /** Each word contributes its maximal ASCII-letter runs in order and, when it
      does not end in a letter, one empty entry; its final run is its last
      run if it ends in a letter and "" otherwise. */
  lemma WordOutputRuns(w: string)
    ensures WordOutput(w) == RunsWithFinal(LowerAll(w))
    ensures var t := LowerAll(w);
            WordScan(w).1 == if EndsWithLetter(t) then Fields(t, NotAsciiLower)[|Fields(t, NotAsciiLower)| - 1] else []
  {
    ScanRuns(w, [], []);
    assert [] + LowerAll(w) == LowerAll(w);
    var t := LowerAll(w);
    assert WordOutput(w)[|WordOutput(w)| - 1] == WordScan(w).1;
  }

  lemma {:induction false} BodyRuns(words: seq<string>)
    ensures Body(words) == RunsOfWords(words)
    decreases |words|
  {
    if words != [] {
      BodyRuns(words[..|words| - 1]);
      WordOutputRuns(words[|words| - 1]);
    }
  }

  /** refine_tokens, described without the scanner: the runs of every word in
      order, then the last word's final run once more when it is not empty. */
  lemma RefineIsRuns(words: seq<string>)
    ensures words == [] ==> Refine(words) == []
    ensures words != [] ==>
              var last := LowerAll(words[|words| - 1]);
              var f := Fields(last, NotAsciiLower);
              Refine(words) == RunsOfWords(words) + (if EndsWithLetter(last) then [f[|f| - 1]] else [])
  {
    BodyRuns(words);
    if words != [] {
      WordOutputRuns(words[|words| - 1]);
    }
  }

  /** A non-empty final run of the last word ends the output twice. */
  lemma FinalRunTwice(words: seq<string>)
    requires FinalRun(words) != []
    ensures var r := Refine(words);
            |r| >= 2 && r[|r| - 1] == FinalRun(words) && r[|r| - 2] == FinalRun(words)
  {
    var w := words[|words| - 1];
    assert words[..|words| - 1] + [w] == words;
    assert Body(words) == Body(words[..|words| - 1]) + WordOutput(w);
  }

  lemma AllLowerAppend(a: seq<string>, b: seq<string>)
    requires forall i :: 0 <= i < |a| ==> AllAsciiLower(a[i])
    requires forall i :: 0 <= i < |b| ==> AllAsciiLower(b[i])
    ensures forall i :: 0 <= i < |a + b| ==> AllAsciiLower((a + b)[i])
  {
    forall i | 0 <= i < |a + b| ensures AllAsciiLower((a + b)[i]) {
      if i < |a| { assert (a + b)[i] == a[i]; } else { assert (a + b)[i] == b[i - |a|]; }
    }
  }

  lemma {:induction false} RunsOfWordsLower(words: seq<string>)
    ensures forall i :: 0 <= i < |RunsOfWords(words)| ==> AllAsciiLower(RunsOfWords(words)[i])
    decreases |words|
  {
    if words != [] {
      RunsOfWordsLower(words[..|words| - 1]);
      var f := Fields(LowerAll(words[|words| - 1]), NotAsciiLower);
      assert forall i :: 0 <= i < |f| ==> AllAsciiLower(f[i]);
      AllLowerAppend(f, [[]]);
      AllLowerAppend(RunsOfWords(words[..|words| - 1]), RunsWithFinal(LowerAll(words[|words| - 1])));
    }
  }

  /** Every token refine_tokens emits consists of the characters 'a'..'z' only
      (the empty entries trivially so). */
  lemma RefineLowercase(words: seq<string>)
    ensures forall i :: 0 <= i < |Refine(words)| ==> AllAsciiLower(Refine(words)[i])
  {
    RefineIsRuns(words);
    RunsOfWordsLower(words);
    if words != [] {
      var f := Fields(LowerAll(words[|words| - 1]), NotAsciiLower);
      if EndsWithLetter(LowerAll(words[|words| - 1])) {
        assert AllAsciiLower(f[|f| - 1]);
        AllLowerAppend(RunsOfWords(words), [f[|f| - 1]]);
      }
    }
  }
}
